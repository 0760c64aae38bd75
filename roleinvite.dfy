/** The RoleInvite cog of roleinvite/roleinvite.py as it runs against one
    guild: the guild's configuration is an object whose fields the commands
    and the join handler update in place, and each handler is shown to do
    exactly what the matching function of `Registry` or `Attribution` says. */
module RoleInvite {
  import opened Wrappers
  import opened Seqs
  import opened Links
  import Registry
  import Attribution

  /** The linear search of lines 213-215 (and `discord.utils.get` at line
      527): the first of the guild's invites with the given URL. */
  method LocateInvite(invites: seq<LiveInvite>, url: Url) returns (found: Option<LiveInvite>)
    ensures found == FindInvite(invites, url)
    ensures found.Some? ==> found.value in invites && found.value.url == url
  {
    var i := 0;
    while i < |invites|
      invariant 0 <= i <= |invites|
      invariant forall t :: 0 <= t < i ==> invites[t].url != url
    {
      if invites[i].url == url {
        return Some(invites[i]);
      }
      i := i + 1;
    }
    return None;
  }

  /** The loop of `roles_iteration` (lines 129-142) over a copy of the
      stored list: it stops as soon as it meets the role being added among
      the live roles; otherwise it keeps the live role ids in stored order. */
  method LiveRoles(stored: seq<RoleId>, role: RoleId, srv: Server) returns (kept: seq<RoleId>, duplicate: bool)
    ensures duplicate <==> role in stored && role in srv.roles
    ensures !duplicate ==> kept == Found(stored, srv)
  {
    kept := [];
    for i := 0 to |stored|
      invariant kept == Found(stored[..i], srv)
      invariant role !in kept
    {
      FoundSnoc(stored, i, srv);
      if stored[i] in srv.roles {
        if stored[i] == role {
          return kept, true;
        }
        kept := kept + [stored[i]];
      }
    }
    assert stored[..|stored|] == stored;
    return kept, false;
  }

  /** The first loop of `roleset list` (lines 311-317): the invite keys
      whose lookup reports NotFound, in mapping order. */
  method CollectDeadInvites(keys: seq<InviteKey>, notFound: set<Url>) returns (toDelete: seq<InviteKey>)
    ensures forall k :: k in toDelete <==> k in keys && k.Concrete? && k.url in notFound
  {
    toDelete := [];
    for i := 0 to |keys|
      invariant forall k :: k in toDelete <==> k in keys[..i] && k.Concrete? && k.url in notFound
    {
      assert keys[..i + 1] == keys[..i] + [keys[i]];
      if keys[i].Concrete? && keys[i].url in notFound {
        toDelete := toDelete + [keys[i]];
      }
    }
    assert keys[..|keys|] == keys;
  }

  /** The first loop of `add_roles` (lines 443-448): the stored role ids split
      into those the server still has and the lost ones, both in stored order. */
  method SplitFound(roles: seq<RoleId>, srv: Server) returns (found: seq<RoleId>, lost: seq<RoleId>)
    ensures found == Found(roles, srv) && lost == Lost(roles, srv)
    ensures lost == [] <==> found == roles
  {
    found, lost := [], [];
    for i := 0 to |roles|
      invariant found == Found(roles[..i], srv) && lost == Lost(roles[..i], srv)
    {
      FoundSnoc(roles, i, srv);
      if roles[i] !in srv.roles {
        lost := lost + [roles[i]];
      } else {
        found := found + [roles[i]];
      }
    }
    assert roles[..|roles|] == roles;
    NothingLost(roles, srv);
  }

  /** The hierarchy loop of `add_roles` (lines 471-476) over roles that exist:
      those the bot may hand out and those at or above its top role, in order. */
  method SplitUsable(roles: seq<RoleId>, srv: Server) returns (usable: seq<RoleId>, tooHigh: seq<RoleId>)
    requires forall r :: r in roles ==> r in srv.roles
    ensures usable == Usable(roles, srv) && tooHigh == TooHigh(roles, srv)
    ensures tooHigh == [] <==> usable == roles
  {
    usable, tooHigh := [], [];
    for i := 0 to |roles|
      invariant usable == Usable(roles[..i], srv) && tooHigh == TooHigh(roles[..i], srv)
    {
      UsableSnoc(roles, i, srv);
      if srv.roles[roles[i]] >= srv.topRole {
        tooHigh := tooHigh + [roles[i]];
      } else {
        usable := usable + [roles[i]];
      }
    }
    assert roles[..|roles|] == roles;
    NothingTooHigh(roles, srv);
  }

  /** One guild's `Config` group: the autorole flag and the `invites`
      mapping, whose key order is kept in `order`. */
  class GuildConfig {
    var enabled: bool
    var order: seq<InviteKey>
    var links: map<InviteKey, Link>

    /** The stored configuration as a value. */
    function Abs(): Store
      reads this
    {
      Store(enabled, order, links)
    }

    ghost predicate Valid()
      reads this
    {
      Links.Valid(Abs())
    }

    /** A guild that the cog has never seen holds the registered defaults. */
    constructor ()
      ensures Abs() == NewStore() && Valid()
    {
      enabled, order, links := false, [], map[];
    }

    // -------------------------------------------------------------------
    // store writes

    /** `API.add_invite(guild, key, [role])`. */
    method AddInvite(k: InviteKey, role: RoleId, uses: nat)
      modifies this
      ensures Abs() == LinkRole(old(Abs()), k, role, uses)
    {
      if k in links {
        links := links[k := links[k].(roles := links[k].roles + [role])];
      } else {
        order := order + [k];
        links := links[k := Link([role], uses)];
      }
    }

    /** `del invites[k]` followed by writing the mapping back. */
    method DeleteKey(k: InviteKey)
      modifies this
      ensures Abs() == DeleteKeys(old(Abs()), {k})
    {
      links := links - {k};
      order := WithoutKeys(order, {k});
    }

    /** One more deletion after the keys `gone` were deleted from `s0`. */
    method DeleteOneMore(ghost s0: Store, ghost gone: set<InviteKey>, k: InviteKey)
      requires Abs() == DeleteKeys(s0, gone)
      modifies this
      ensures Abs() == DeleteKeys(s0, gone + {k})
    {
      DeleteKeysTwice(s0, gone, {k});
      DeleteKey(k);
    }

    /** `set_raw(k, "roles", value=roles)` on a stored key. */
    method StoreRoles(k: InviteKey, roles: seq<RoleId>)
      modifies this
      ensures Abs() == SetRoles(old(Abs()), k, roles)
    {
      if k in links {
        links := links[k := links[k].(roles := roles)];
      }
    }

    /** `set_raw(k, "uses", value=uses)` on a stored key. */
    method StoreUses(k: InviteKey, uses: nat)
      modifies this
      ensures Abs() == SetUses(old(Abs()), k, uses)
    {
      if k in links {
        links := links[k := links[k].(uses := uses)];
      }
    }

    // -------------------------------------------------------------------
    // roleset commands

    /** `roles_iteration` (lines 123-161), walking a copy of the key's role
        list: a linked role stops the walk before anything is written; after
        the walk the live role ids are stored. */
    method RolesIteration(k: InviteKey, role: RoleId, srv: Server, confirm: bool) returns (verdict: Registry.Verdict)
      modifies this
      ensures Registry.Vet(old(Abs()), k, role, srv, confirm) == Registry.Vetted(Abs(), verdict)
    {
      if k !in links {
        return Registry.Proceed;
      }
      var kept, duplicate := LiveRoles(links[k].roles, role, srv);
      if duplicate {
        return Registry.Duplicate;
      }
      StoreRoles(k, kept);
      if kept == [] || confirm {
        return Registry.Proceed;
      }
      return Registry.Refused;
    }

    /** `roleset add` (lines 111-223). */
    method Add(role: RoleId, arg: Registry.InviteArg, srv: Server, confirm: bool) returns (outcome: Registry.Outcome)
      requires Valid()
      modifies this
      ensures Registry.Add(old(Abs()), role, arg, srv, confirm) == Registry.Reply(Abs(), outcome)
      ensures Valid()
    {
      ghost var s0 := Abs();
      Registry.AddPreservesValid(s0, role, arg, srv, confirm);
      if role !in srv.roles {
        return Registry.Rejected(Registry.RoleNotFound);
      }
      if srv.roles[role] >= srv.topRole {
        return Registry.Rejected(Registry.RoleTooHigh);
      }
      if !srv.manageGuild {
        return Registry.Rejected(Registry.NeedManageGuild);
      }
      var k: InviteKey;
      var uses: nat;
      match arg {
        case Unresolved(text) =>
          if text == "main" {
            k, uses := Main, 0;
          } else if text == "default" {
            k, uses := Default, 0;
          } else {
            return Registry.Rejected(Registry.InviteNotFound);
          }
        case Resolved(url, own) =>
          if !own {
            return Registry.Rejected(Registry.ForeignInvite);
          }
          if srv.invites == [] {
            return Registry.Rejected(Registry.NoInvites);
          }
          var live := LocateInvite(srv.invites, url);
          if live.None? {
            return Registry.Rejected(Registry.InviteNotFound);
          }
          k, uses := Concrete(url), live.value.uses;
      }
      var verdict := RolesIteration(k, role, srv, confirm);
      if verdict == Registry.Duplicate {
        return Registry.Rejected(Registry.AlreadyLinked);
      }
      if verdict == Registry.Refused {
        return Registry.Rejected(Registry.Declined);
      }
      AddInvite(k, role, uses);
      return Registry.Done;
    }

    /** `roleset remove` (lines 226-295). */
    method Remove(k: InviteKey, role: Option<RoleId>, srv: Server, confirm: bool) returns (outcome: Registry.Outcome)
      requires Valid()
      modifies this
      ensures Registry.Remove(old(Abs()), k, role, srv, confirm) == Registry.Reply(Abs(), outcome)
      ensures Valid()
    {
      Registry.RemovePreservesValid(Abs(), k, role, srv, confirm);
      if role.Some? && role.value !in srv.roles {
        return Registry.Rejected(Registry.RoleNotFound);
      }
      if k !in links {
        return Registry.Rejected(Registry.LinkNotFound);
      }
      if !confirm {
        return Registry.Rejected(Registry.Declined);
      }
      if role.None? || |links[k].roles| <= 1 {
        DeleteKey(k);
      } else {
        StoreRoles(k, WithoutRole(links[k].roles, role.value));
      }
      return Registry.Done;
    }

    /** The pruning part of `roleset list` (lines 298-358): the keys whose
        invite lookup reports NotFound are collected, then deleted one by one. */
    method List(embedLinks: bool, notFound: set<Url>) returns (outcome: Registry.Outcome)
      requires Valid()
      modifies this
      ensures Registry.List(old(Abs()), embedLinks, notFound) == Registry.Reply(Abs(), outcome)
      ensures Valid()
    {
      ghost var s0 := Abs();
      if !embedLinks {
        return Registry.Rejected(Registry.NeedEmbedLinks);
      }
      var toDelete := CollectDeadInvites(order, notFound);
      ghost var gone := DeleteEach(toDelete);
      Registry.DeadInvitesAre(s0, notFound, gone);
      return Registry.Done;
    }

    /** `for deletion in to_delete: del invites[deletion]` (lines 356-358). */
    method DeleteEach(toDelete: seq<InviteKey>) returns (ghost gone: set<InviteKey>)
      modifies this
      ensures forall k :: k in gone <==> k in toDelete
      ensures Abs() == DeleteKeys(old(Abs()), gone)
    {
      ghost var s0 := Abs();
      gone := {};
      DeleteNothing(s0);
      for j := 0 to |toDelete|
        invariant forall k :: k in gone <==> k in toDelete[..j]
        invariant Abs() == DeleteKeys(s0, gone)
      {
        assert toDelete[..j + 1] == toDelete[..j] + [toDelete[j]];
        DeleteOneMore(s0, gone, toDelete[j]);
        gone := gone + {toDelete[j]};
      }
      assert toDelete[..|toDelete|] == toDelete;
    }

    /** `roleset enable` (lines 381-396). */
    method Enable(srv: Server) returns (outcome: Registry.Outcome)
      requires Valid()
      modifies this
      ensures Registry.Enable(old(Abs()), srv) == Registry.Reply(Abs(), outcome)
      ensures Valid()
    {
      if !srv.manageRoles {
        return Registry.Rejected(Registry.NeedManageRoles);
      }
      if !srv.manageGuild {
        return Registry.Rejected(Registry.NeedManageGuild);
      }
      enabled := !enabled;
      return Registry.Done;
    }

    // -------------------------------------------------------------------
    // member join

    /** `add_roles(k)` (lines 431-499). */
    method AddRoles(k: InviteKey, srv: Server) returns (grants: seq<Attribution.Grant>, proceed: bool)
      modifies this
      ensures Attribution.GrantRoles(old(Abs()), k, srv) == Attribution.Step(Abs(), grants, proceed)
    {
      if k !in links {
        return [], true;
      }
      ghost var s0 := Abs();
      var found, lost := SplitFound(links[k].roles, srv);
      if lost != [] {
        StoreRoles(k, found);
      } else {
        SetRolesSame(s0, k);
      }
      ghost var s1 := Abs();
      if !srv.manageRoles {
        enabled := false;
        return [], false;
      }
      var usable, tooHigh := SplitUsable(found, srv);
      if tooHigh != [] {
        StoreRoles(k, usable);
      } else {
        SetRolesSame(s1, k);
      }
      if usable == [] {
        DeleteAfterSetRoles(s1, k, usable);
        DeleteKey(k);
        return [], false;
      }
      return [Attribution.Grant(usable, Attribution.ReasonFor(k))], true;
    }

    /** `on_member_join` (lines 501-544). */
    method OnMemberJoin(srv: Server) returns (grants: seq<Attribution.Grant>)
      requires Valid()
      modifies this
      ensures Attribution.Join(old(Abs()), srv) == Attribution.Joined(Abs(), grants)
      ensures Valid()
    {
      ghost var s0 := Abs();
      Attribution.JoinPreservesValid(s0, srv);
      if !enabled {
        return [];
      }
      var snapshot := Abs();
      if srv.invitesForbidden {
        enabled := false;
        return [];
      }
      Attribution.JoinUnfold(s0, srv);
      var proceed: bool;
      grants, proceed := AddRoles(Default, srv);
      if !proceed {
        return;
      }
      var more := Scan(snapshot, srv);
      grants := grants + more;
    }

    /** The scan of lines 522-544 over the mapping as read at line 504
        (`snapshot`): the walk stops at the first used invite, whose roles are
        granted and whose use count is recorded; without a used invite the
        `main` roles are granted. */
    method Scan(snapshot: Store, srv: Server) returns (grants: seq<Attribution.Grant>)
      requires Links.Valid(snapshot)
      modifies this
      ensures Attribution.Attribute(snapshot, old(Abs()), srv) == Attribution.Joined(Abs(), grants)
    {
      ghost var s1 := Abs();
      var i, uses := PruneUntilUsed(snapshot, srv);
      var carryOn: bool;
      if i < |snapshot.order| {
        var k := snapshot.order[i];
        grants, carryOn := AddRoles(k, srv);
        if carryOn {
          StoreUses(k, uses);
        }
      } else {
        grants, carryOn := AddRoles(Main, srv);
      }
      Attribution.AttributeUnfold(snapshot, s1, srv);
    }

    /** The walk of lines 522-535: keys are taken in `snapshot`'s order,
        `main` and `default` are skipped, an invite that is gone is deleted and
        the walk goes on, and the walk stops at the first invite whose live
        use count exceeds the recorded one (`i` is that key's position, or the
        length of the order, and `uses` its live count). */
    method PruneUntilUsed(snapshot: Store, srv: Server) returns (i: nat, uses: nat)
      requires Links.Valid(snapshot)
      modifies this
      ensures i == Attribution.FirstUsed(snapshot.order, snapshot.links, srv.invites)
      ensures Abs() == DeleteKeys(old(Abs()), Attribution.DeadAmong(snapshot.order[..i], srv.invites))
      ensures i < |snapshot.order| ==> snapshot.order[i].Concrete? &&
                                       FindInvite(srv.invites, snapshot.order[i].url).Some? &&
                                       uses == FindInvite(srv.invites, snapshot.order[i].url).value.uses
    {
      ghost var s1 := Abs();
      ghost var dead: set<InviteKey> := {};
      DeleteNothing(s1);
      var keys, links0 := snapshot.order, snapshot.links;
      i, uses := 0, 0;
      while i < |keys|
        invariant 0 <= i <= |keys|
        invariant forall t :: 0 <= t < i ==> !Attribution.Used(keys[t], links0, srv.invites)
        invariant dead == Attribution.DeadAmong(keys[..i], srv.invites)
        invariant Abs() == DeleteKeys(s1, dead)
      {
        var k := keys[i];
        DeadAmongSnoc(keys, i, srv.invites);
        if k.Concrete? {
          var live := LocateInvite(srv.invites, k.url);
          if live.None? {
            assert !Attribution.Used(k, links0, srv.invites);
            DeleteOneMore(s1, dead, k);
            dead := dead + {k};
          } else if live.value.uses <= links0[k].uses {
            assert !Attribution.Used(k, links0, srv.invites);
          } else {
            FirstUsedAt(keys, links0, srv.invites, i);
            return i, live.value.uses;
          }
        }
        i := i + 1;
      }
      FirstUsedAt(keys, links0, srv.invites, i);
    }
  }

  /** Scanning one more key adds it to the dead keys when its invite is gone. */
  lemma DeadAmongSnoc(keys: seq<InviteKey>, i: nat, invites: seq<LiveInvite>)
    requires i < |keys|
    ensures Attribution.DeadAmong(keys[..i + 1], invites) ==
            Attribution.DeadAmong(keys[..i], invites) + (if Attribution.Dead(keys[i], invites) then {keys[i]} else {})
  {
    assert keys[..i + 1] == keys[..i] + [keys[i]];
  }

  /** The scan stops at the first used key: when none before `i` is used and
      `i` is used (or the end), that is where `FirstUsed` points. */
  lemma FirstUsedAt(order: seq<InviteKey>, links: map<InviteKey, Link>, invites: seq<LiveInvite>, i: nat)
    requires i <= |order|
    requires forall t :: 0 <= t < i ==> !Attribution.Used(order[t], links, invites)
    requires i < |order| ==> Attribution.Used(order[i], links, invites)
    ensures Attribution.FirstUsed(order, links, invites) == i
  {
  }
}
