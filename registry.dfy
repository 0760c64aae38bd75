/** The `roleset` commands of roleinvite/roleinvite.py as functions from the
    store (and the server snapshot and the moderator's yes/no answer) to the
    new store and the command's outcome, with the properties they keep. */
module Registry {
  import opened Wrappers
  import opened Seqs
  import opened Links

  /** Why a command left the store as it was (or, for `Declined` in `add`,
      with only its stale role ids pruned). */
  datatype Rejection =
    | RoleNotFound      // the role argument names no role of the server
    | RoleTooHigh       // the role sits at or above the bot's top role
    | NeedManageGuild
    | NeedManageRoles
    | NeedEmbedLinks
    | InviteNotFound    // no such invite, or not one of the guild's invites
    | ForeignInvite     // the invite belongs to another guild
    | NoInvites         // the guild has no invites at all
    | AlreadyLinked
    | Declined          // the moderator answered no, or did not answer
    | LinkNotFound      // `remove` on a key that is not in the mapping

  datatype Outcome = Done | Rejected(why: Rejection)

  datatype Reply = Reply(store: Store, outcome: Outcome)

  /** The invite argument of `add` after Discord's invite converter ran:
      either it resolved to an invite (of this guild or not), or conversion
      failed and the raw text is left. */
  datatype InviteArg = Resolved(url: Url, ownGuild: bool) | Unresolved(text: string)

  /** The key `add` links to, with the use count a new entry starts from. */
  datatype Target = Key(key: InviteKey, uses: nat) | Fail(why: Rejection)

  /** Turns `add`'s invite argument into a key (lines 172-186 and 213-223). */
  function Resolve(arg: InviteArg, invites: seq<LiveInvite>): (t: Target)
    ensures t.Key? && t.key.Concrete? ==> arg == Resolved(t.key.url, true) && FindInvite(invites, t.key.url).Some?
    ensures t.Key? && !t.key.Concrete? ==> arg.Unresolved? && t.uses == 0 &&
                                           (t.key == Main <==> arg.text == "main")
    ensures arg.Unresolved? && arg.text != "main" && arg.text != "default" ==> t == Fail(InviteNotFound)
    ensures arg.Resolved? && arg.ownGuild && FindInvite(invites, arg.url).None? ==> t.Fail?
    ensures arg.Resolved? && arg.ownGuild && FindInvite(invites, arg.url).Some? ==>
              t == Key(Concrete(arg.url), FindInvite(invites, arg.url).value.uses)
    ensures arg.Resolved? && !arg.ownGuild ==> t == Fail(ForeignInvite)
    ensures arg == Unresolved("main") ==> t == Key(Main, 0)
    ensures arg == Unresolved("default") ==> t == Key(Default, 0)
  {
    match arg
    case Unresolved(text) =>
      if text == "main" then Key(Main, 0)
      else if text == "default" then Key(Default, 0)
      else Fail(InviteNotFound)
    case Resolved(url, own) =>
      if !own then Fail(ForeignInvite)
      else if invites == [] then Fail(NoInvites)
      else match FindInvite(invites, url)
        case None => Fail(InviteNotFound)
        case Some(live) => Key(Concrete(url), live.uses)
  }

  /** The verdict of `roles_iteration`. */
  datatype Verdict = Proceed | Duplicate | Refused

  datatype Vetted = Vetted(store: Store, verdict: Verdict)

  /** `roles_iteration` (lines 123-161), iterating over a snapshot of the key's
      roles: a role already linked stops with no change; otherwise the role ids
      that no longer exist are dropped and stored, and if live roles remain the
      moderator is asked to confirm. */
  function Vet(s: Store, k: InviteKey, role: RoleId, srv: Server, confirm: bool): (v: Vetted)
    ensures v.store.enabled == s.enabled && v.store.order == s.order && v.store.links.Keys == s.links.Keys
    ensures forall k' :: k' in s.links && k' != k ==> v.store.links[k'] == s.links[k']
    ensures v.verdict == Duplicate <==> k in s.links && role in Found(s.links[k].roles, srv)
    ensures v.verdict == Duplicate ==> v.store == s
  {
    if k !in s.links then Vetted(s, Proceed)
    else
      var kept := Found(s.links[k].roles, srv);
      if role in kept then Vetted(s, Duplicate)
      else if kept == [] || confirm then Vetted(SetRoles(s, k, kept), Proceed)
      else Vetted(SetRoles(s, k, kept), Refused)
  }

  /** `roleset add` (lines 111-223). */
  function Add(s: Store, role: RoleId, arg: InviteArg, srv: Server, confirm: bool): (r: Reply)
    ensures r.store.enabled == s.enabled && s.links.Keys <= r.store.links.Keys
    ensures r.outcome.Done? ==> Resolve(arg, srv.invites).Key? &&
                                 Resolve(arg, srv.invites).key in r.store.links &&
                                 role in r.store.links[Resolve(arg, srv.invites).key].roles
  {
    if role !in srv.roles then Reply(s, Rejected(RoleNotFound))
    else if srv.roles[role] >= srv.topRole then Reply(s, Rejected(RoleTooHigh))
    else if !srv.manageGuild then Reply(s, Rejected(NeedManageGuild))
    else match Resolve(arg, srv.invites)
      case Fail(why) => Reply(s, Rejected(why))
      case Key(k, uses) =>
        var v := Vet(s, k, role, srv, confirm);
        match v.verdict
        case Duplicate => Reply(v.store, Rejected(AlreadyLinked))
        case Refused => Reply(v.store, Rejected(Declined))
        case Proceed => Reply(LinkRole(v.store, k, role, uses), Done)
  }

  /** `roleset remove` (lines 226-295). `role` is the optional role argument. */
  function Remove(s: Store, k: InviteKey, role: Option<RoleId>, srv: Server, confirm: bool): (r: Reply)
    ensures r.store.enabled == s.enabled && r.store.links.Keys <= s.links.Keys
    ensures forall k' :: k' in s.links && k' != k ==> k' in r.store.links && r.store.links[k'] == s.links[k']
    ensures r.outcome.Rejected? ==> r.store == s
  {
    if role.Some? && role.value !in srv.roles then Reply(s, Rejected(RoleNotFound))
    else if k !in s.links then Reply(s, Rejected(LinkNotFound))
    else if !confirm then Reply(s, Rejected(Declined))
    else if role.None? || |s.links[k].roles| <= 1 then Reply(DeleteKeys(s, {k}), Done)
    else Reply(SetRoles(s, k, WithoutRole(s.links[k].roles, role.value)), Done)
  }

  /** The concrete keys whose invite lookup reports NotFound. */
  function DeadInvites(s: Store, notFound: set<Url>): set<InviteKey> {
    set k | k in s.links && k.Concrete? && k.url in notFound
  }

  /** The dead keys picked out by walking the order are the dead keys of the mapping. */
  lemma DeadInvitesAre(s: Store, notFound: set<Url>, gone: set<InviteKey>)
    requires Valid(s)
    requires forall k :: k in gone <==> k in s.order && k.Concrete? && k.url in notFound
    ensures gone == DeadInvites(s, notFound)
  {
  }

  /** The pruning part of `roleset list` (lines 298-358): `notFound` holds the
      URLs for which `bot.get_invite` raises NotFound. */
  function List(s: Store, embedLinks: bool, notFound: set<Url>): (r: Reply)
    ensures r.store.enabled == s.enabled && r.store.links.Keys <= s.links.Keys
    ensures forall k :: k in r.store.links ==> r.store.links[k] == s.links[k]
  {
    if !embedLinks then Reply(s, Rejected(NeedEmbedLinks))
    else Reply(DeleteKeys(s, DeadInvites(s, notFound)), Done)
  }

  /** `roleset enable` (lines 381-396). */
  function Enable(s: Store, srv: Server): (r: Reply)
    ensures r.store.order == s.order && r.store.links == s.links
    ensures r.outcome.Rejected? ==> r.store == s
  {
    if !srv.manageRoles then Reply(s, Rejected(NeedManageRoles))
    else if !srv.manageGuild then Reply(s, Rejected(NeedManageGuild))
    else Reply(s.(enabled := !s.enabled), Done)
  }

  // ---------------------------------------------------------------------
  // add

  /** A rejected `add` changes nothing, except that a declined confirmation
      keeps the pruning of stale role ids already written at line 144. */
  lemma AddRejectedUnchanged(s: Store, role: RoleId, arg: InviteArg, srv: Server, confirm: bool)
    ensures var r := Add(s, role, arg, srv, confirm);
      r.outcome.Rejected? && r.outcome.why != Declined ==> r.store == s
  {
  }

  /** The three checks before any lookup: a role at or above the bot's top
      role, then a missing `manage_guild`, reject with no change. */
  lemma AddGuards(s: Store, role: RoleId, arg: InviteArg, srv: Server, confirm: bool)
    requires role in srv.roles
    ensures srv.roles[role] >= srv.topRole ==>
      Add(s, role, arg, srv, confirm) == Reply(s, Rejected(RoleTooHigh))
    ensures srv.roles[role] < srv.topRole && !srv.manageGuild ==>
      Add(s, role, arg, srv, confirm) == Reply(s, Rejected(NeedManageGuild))
    ensures Add(s, role, arg, srv, confirm).outcome == Done ==> Grantable(srv, role) && srv.manageGuild
  {
  }

  /** Once the key is resolved, `add` reports the role as already linked
      exactly when the key's stored list contains it. */
  lemma AddDuplicateIff(s: Store, role: RoleId, arg: InviteArg, srv: Server, confirm: bool, k: InviteKey, uses: nat)
    requires Grantable(srv, role) && srv.manageGuild
    requires Resolve(arg, srv.invites) == Key(k, uses)
    ensures Add(s, role, arg, srv, confirm).outcome == Rejected(AlreadyLinked)
            <==> k in s.links && role in s.links[k].roles
  {
  }

  /** A successful `add` appends the role to the key's live roles (creating
      the key last in the order), and nothing else changes. */
  lemma AddLinks(s: Store, role: RoleId, arg: InviteArg, srv: Server, confirm: bool, k: InviteKey, uses: nat)
    requires Resolve(arg, srv.invites) == Key(k, uses)
    requires Add(s, role, arg, srv, confirm).outcome == Done
    ensures var r := Add(s, role, arg, srv, confirm).store;
      && r.enabled == s.enabled
      && r.links.Keys == s.links.Keys + {k}
      && (k in s.links ==> r.order == s.order && r.links[k] == Link(Found(s.links[k].roles, srv) + [role], s.links[k].uses))
      && (k !in s.links ==> r.order == s.order + [k] && r.links[k] == Link([role], uses))
      && (forall k' :: k' in s.links && k' != k ==> r.links[k'] == s.links[k'])
  {
  }

  /** `add` links the role exactly when every check passes: the role may be
      given, `manage_guild` is held, the invite resolves, the role is not yet
      stored under the key, and the moderator confirms unless the key holds no
      live role. */
  lemma AddSucceeds(s: Store, role: RoleId, arg: InviteArg, srv: Server, confirm: bool, k: InviteKey, uses: nat)
    requires Resolve(arg, srv.invites) == Key(k, uses)
    ensures Add(s, role, arg, srv, confirm).outcome == Done <==>
            && Grantable(srv, role) && srv.manageGuild
            && (k in s.links ==> role !in s.links[k].roles && (confirm || Found(s.links[k].roles, srv) == []))
  {
  }

  /** Declining the confirmation keeps the key's live roles only, which are
      not empty (otherwise no question is asked), and touches nothing else. */
  lemma AddDeclined(s: Store, role: RoleId, arg: InviteArg, srv: Server, k: InviteKey, uses: nat)
    requires Resolve(arg, srv.invites) == Key(k, uses)
    requires Add(s, role, arg, srv, false).outcome == Rejected(Declined)
    ensures k in s.links && Found(s.links[k].roles, srv) != []
    ensures Add(s, role, arg, srv, false).store == SetRoles(s, k, Found(s.links[k].roles, srv))
    ensures Add(s, role, arg, srv, true).outcome == Done
  {
  }

  /** A role id is never linked twice to a key, and the order stays in step
      with the mapping. */
  lemma AddPreservesValid(s: Store, role: RoleId, arg: InviteArg, srv: Server, confirm: bool)
    requires Valid(s)
    ensures Valid(Add(s, role, arg, srv, confirm).store)
  {
    if role in srv.roles && srv.roles[role] < srv.topRole && srv.manageGuild && Resolve(arg, srv.invites).Key? {
      var k, uses := Resolve(arg, srv.invites).key, Resolve(arg, srv.invites).uses;
      var v := Vet(s, k, role, srv, confirm);
      VetPreservesValid(s, k, role, srv, confirm);
      if v.verdict == Proceed {
        LinkRolePreservesValid(v.store, k, role, uses);
      }
    }
  }

  lemma VetPreservesValid(s: Store, k: InviteKey, role: RoleId, srv: Server, confirm: bool)
    requires Valid(s)
    ensures var v := Vet(s, k, role, srv, confirm);
      Valid(v.store) && (v.verdict == Proceed && k in v.store.links ==> role !in v.store.links[k].roles)
  {
  }

  /** Appending a role that is not yet linked keeps the store valid. */
  lemma LinkRolePreservesValid(s: Store, k: InviteKey, role: RoleId, uses: nat)
    requires Valid(s)
    requires k in s.links ==> role !in s.links[k].roles
    ensures Valid(LinkRole(s, k, role, uses))
  {
    if k in s.links {
      DistinctSnoc(s.links[k].roles, role);
    } else {
      DistinctSnoc(s.order, k);
    }
  }

  /** `add` never leaves an entry without roles. */
  lemma AddKeepsNoEmptyLinks(s: Store, role: RoleId, arg: InviteArg, srv: Server, confirm: bool)
    requires NoEmptyLinks(s)
    ensures NoEmptyLinks(Add(s, role, arg, srv, confirm).store)
  {
    AddRejectedUnchanged(s, role, arg, srv, confirm);
    var r := Add(s, role, arg, srv, confirm);
    if r.outcome == Done || r.outcome == Rejected(Declined) {
      var k, uses := Resolve(arg, srv.invites).key, Resolve(arg, srv.invites).uses;
      if r.outcome == Done {
        AddLinks(s, role, arg, srv, confirm, k, uses);
      } else {
        AddDeclined(s, role, arg, srv, k, uses);
      }
    }
  }


  // ---------------------------------------------------------------------
  // remove

  /** `remove` on a key that is not linked answers "cannot be found" and
      changes nothing, however often it is repeated. */
  lemma RemoveAbsentTwice(s: Store, k: InviteKey, role: Option<RoleId>, srv: Server, confirm: bool)
    requires k !in s.links
    requires role.Some? ==> role.value in srv.roles
    ensures Remove(s, k, role, srv, confirm) == Reply(s, Rejected(LinkNotFound))
    ensures var r := Remove(s, k, role, srv, confirm).store;
            Remove(r, k, role, srv, confirm) == Reply(s, Rejected(LinkNotFound))
  {
  }

  /** A confirmed `remove` without a role, or of an entry with at most one
      role, deletes the whole key; otherwise it drops just that role id;
      declining changes nothing. */
  lemma RemoveEffect(s: Store, k: InviteKey, role: Option<RoleId>, srv: Server, confirm: bool)
    requires k in s.links
    requires role.Some? ==> role.value in srv.roles
    ensures var r := Remove(s, k, role, srv, confirm);
      && (!confirm ==> r == Reply(s, Rejected(Declined)))
      && (confirm && (role.None? || |s.links[k].roles| <= 1) ==>
            r.outcome == Done && r.store.links == s.links - {k} && k !in r.store.order)
      && (confirm && role.Some? && |s.links[k].roles| > 1 ==>
            && r.outcome == Done && r.store.order == s.order && r.store.links.Keys == s.links.Keys
            && (forall x :: x in r.store.links[k].roles <==> x in s.links[k].roles && x != role.value)
            && r.store.links[k].uses == s.links[k].uses)
      && (forall k' :: k' in s.links && k' != k ==> k' in r.store.links && r.store.links[k'] == s.links[k'])
      && r.store.enabled == s.enabled
  {
  }

  lemma RemovePreservesValid(s: Store, k: InviteKey, role: Option<RoleId>, srv: Server, confirm: bool)
    requires Valid(s)
    ensures Valid(Remove(s, k, role, srv, confirm).store)
  {
  }

  /** Dropping one role id from an entry of at least two distinct roles
      leaves at least one, so `remove` never leaves an entry empty. */
  lemma RemoveKeepsNoEmptyLinks(s: Store, k: InviteKey, role: Option<RoleId>, srv: Server, confirm: bool)
    requires Valid(s) && NoEmptyLinks(s)
    ensures NoEmptyLinks(Remove(s, k, role, srv, confirm).store)
  {
    var r := Remove(s, k, role, srv, confirm);
    if role.Some? && role.value in srv.roles && k in s.links && confirm && |s.links[k].roles| > 1 {
      var roles := s.links[k].roles;
      var other := if roles[0] != role.value then roles[0] else roles[1];
      assert other in roles && other != role.value;
      assert other in WithoutRole(roles, role.value);
    }
  }

  // ---------------------------------------------------------------------
  // list and enable

  /** `list` deletes exactly the concrete keys whose invite is gone; the
      `main` and `default` entries and every other entry stay as they were. */
  lemma ListPrunes(s: Store, embedLinks: bool, notFound: set<Url>)
    requires Valid(s)
    ensures var r := List(s, embedLinks, notFound).store;
      && Valid(r)
      && r.enabled == s.enabled
      && (forall k :: k in r.links <==>
            k in s.links && (!embedLinks || !k.Concrete? || k.url !in notFound))
      && (forall k :: k in r.links ==> r.links[k] == s.links[k])
      && (Main in s.links ==> Main in r.links)
      && (Default in s.links ==> Default in r.links)
  {
  }

  lemma ListKeepsNoEmptyLinks(s: Store, embedLinks: bool, notFound: set<Url>)
    requires NoEmptyLinks(s)
    ensures NoEmptyLinks(List(s, embedLinks, notFound).store)
  {
  }

  /** `enable` flips the flag when the bot holds both permissions and
      otherwise changes nothing; the mapping is never touched. */
  lemma EnableEffect(s: Store, srv: Server)
    ensures var r := Enable(s, srv);
      && r.store.order == s.order && r.store.links == s.links
      && (r.store.enabled != s.enabled <==> srv.manageRoles && srv.manageGuild)
      && (r.outcome == Done <==> srv.manageRoles && srv.manageGuild)
  {
  }

  /** Two `enable` commands under the same permissions restore the flag. */
  lemma EnableTwice(s: Store, srv: Server)
    ensures Enable(Enable(s, srv).store, srv).store == s
  {
  }
}
