/** The per-guild store of the RoleInvite cog (`def_guild`, roleinvite/roleinvite.py
    line 36), the snapshot of the Discord server that the commands and the join
    handler consult, and the store writes that the cog's API object performs. */
module Links {
  import opened Wrappers
  import opened Seqs

  /** A Discord role id (a snowflake). */
  type RoleId = int
  type Url = string

  /** A key of the `invites` mapping: an invite URL, or one of the sentinels
      `"main"` (fallback) and `"default"` (always granted). */
  datatype InviteKey = Concrete(url: Url) | Main | Default

  /** One entry of the mapping: the linked role ids and the last recorded use count. */
  datatype Link = Link(roles: seq<RoleId>, uses: nat)

  /** The guild's configuration. `order` is the insertion order of the mapping's
      keys, which decides which invite wins on a join. */
  datatype Store = Store(enabled: bool, order: seq<InviteKey>, links: map<InviteKey, Link>)

  /** One invite as Discord lists it for the guild. */
  datatype LiveInvite = LiveInvite(url: Url, uses: nat)

  /** What Discord reports at the moment a command or a join is handled:
      the guild's invites in Discord's order, its roles with their hierarchy
      positions, the position of the bot's top role, the bot's `manage_roles`
      and `manage_guild` permissions, and whether listing invites is forbidden. */
  datatype Server = Server(
    invites: seq<LiveInvite>,
    roles: map<RoleId, int>,
    topRole: int,
    manageRoles: bool,
    manageGuild: bool,
    invitesForbidden: bool)

  /** The guild defaults registered with the config: no links, autorole off. */
  function NewStore(): (s: Store)
    ensures Valid(s) && NoEmptyLinks(s)
  {
    Store(false, [], map[])
  }

  /** The store's integrity: the order lists each key of the mapping exactly
      once, and no role id is linked twice to one key. */
  ghost predicate Valid(s: Store) {
    && Distinct(s.order)
    && (forall k :: k in s.order <==> k in s.links)
    && (forall k :: k in s.links ==> Distinct(s.links[k].roles))
  }

  /** No entry has an empty role list. */
  ghost predicate NoEmptyLinks(s: Store) {
    forall k :: k in s.links ==> s.links[k].roles != []
  }

  /** The first live invite with the given URL (`discord.utils.get(..., url=...)`). */
  function FindInvite(invites: seq<LiveInvite>, url: Url): (r: Option<LiveInvite>)
    ensures r.Some? ==> exists i :: 0 <= i < |invites| && invites[i] == r.value && r.value.url == url
                                      && forall t :: 0 <= t < i ==> invites[t].url != url
    ensures r.None? <==> forall i :: 0 <= i < |invites| ==> invites[i].url != url
  {
    if invites == [] then None
    else if invites[0].url == url then Some(invites[0])
    else
      var r := FindInvite(invites[1..], url);
      assert forall i :: 1 <= i < |invites| ==> invites[i] == invites[1..][i - 1];
      r
  }

  /** A role the bot may hand out: it exists and sits strictly below the bot's top role. */
  predicate Grantable(srv: Server, r: RoleId) {
    r in srv.roles && srv.roles[r] < srv.topRole
  }

  /** The stored role ids that still exist on the server, in stored order. */
  function Found(roles: seq<RoleId>, srv: Server): seq<RoleId> {
    Filter(roles, r => r in srv.roles)
  }

  /** The role ids that the bot may hand out, in stored order. */
  function Usable(roles: seq<RoleId>, srv: Server): seq<RoleId> {
    Filter(roles, r => Grantable(srv, r))
  }

  /** The stored role ids that no longer exist on the server, in stored order. */
  function Lost(roles: seq<RoleId>, srv: Server): seq<RoleId> {
    Filter(roles, r => r !in srv.roles)
  }

  /** Roles whose bot may not hand them out although they exist, in order. */
  function TooHigh(roles: seq<RoleId>, srv: Server): seq<RoleId> {
    Filter(roles, r => r in srv.roles && srv.roles[r] >= srv.topRole)
  }

  /** No stored id is lost exactly when every stored id is found. */
  lemma {:induction false} NothingLost(roles: seq<RoleId>, srv: Server)
    ensures Lost(roles, srv) == [] <==> Found(roles, srv) == roles
  {
    if roles != [] {
      var front, last := roles[..|roles| - 1], roles[|roles| - 1];
      NothingLost(front, srv);
      assert roles == front + [last];
    }
  }

  /** Among existing roles, none sits too high exactly when all are usable. */
  lemma {:induction false} NothingTooHigh(roles: seq<RoleId>, srv: Server)
    requires forall r :: r in roles ==> r in srv.roles
    ensures TooHigh(roles, srv) == [] <==> Usable(roles, srv) == roles
  {
    if roles != [] {
      var front, last := roles[..|roles| - 1], roles[|roles| - 1];
      assert roles == front + [last];
      NothingTooHigh(front, srv);
    }
  }

  /** Scanning one more stored id adds it to the found roles when it exists,
      and to the lost ones otherwise. */
  lemma FoundSnoc(roles: seq<RoleId>, i: nat, srv: Server)
    requires i < |roles|
    ensures Found(roles[..i + 1], srv) == Found(roles[..i], srv) + (if roles[i] in srv.roles then [roles[i]] else [])
    ensures Lost(roles[..i + 1], srv) == Lost(roles[..i], srv) + (if roles[i] !in srv.roles then [roles[i]] else [])
  {
    FilterSnoc(roles, i, r => r in srv.roles);
    FilterSnoc(roles, i, r => r !in srv.roles);
  }

  /** Scanning one more role adds it to the usable roles when the bot may
      give it, and to the roles that sit too high when it exists but may not. */
  lemma UsableSnoc(roles: seq<RoleId>, i: nat, srv: Server)
    requires i < |roles|
    ensures Usable(roles[..i + 1], srv) == Usable(roles[..i], srv) + (if Grantable(srv, roles[i]) then [roles[i]] else [])
    ensures TooHigh(roles[..i + 1], srv) == TooHigh(roles[..i], srv) +
              (if roles[i] in srv.roles && srv.roles[roles[i]] >= srv.topRole then [roles[i]] else [])
  {
    FilterSnoc(roles, i, r => Grantable(srv, r));
    FilterSnoc(roles, i, r => r in srv.roles && srv.roles[r] >= srv.topRole);
  }

  /** `order` without the keys in `gone`. */
  function WithoutKeys(order: seq<InviteKey>, gone: set<InviteKey>): seq<InviteKey> {
    Filter(order, k => k !in gone)
  }

  /** `roles` without the role id `r`. */
  function WithoutRole(roles: seq<RoleId>, r: RoleId): seq<RoleId> {
    Filter(roles, x => x != r)
  }

  /** Deletes the entries whose keys are in `gone` (`del invites[...]`, and
      `API.remove_invite` without roles). */
  function DeleteKeys(s: Store, gone: set<InviteKey>): (r: Store)
    ensures r.enabled == s.enabled && r.links == s.links - gone
    ensures forall k :: k in r.order <==> k in s.order && k !in gone
    ensures Valid(s) ==> Valid(r)
  {
    Store(s.enabled, WithoutKeys(s.order, gone), s.links - gone)
  }

  /** Deleting no key changes nothing. */
  lemma DeleteNothing(s: Store)
    ensures DeleteKeys(s, {}) == s
  {
    var gone: set<InviteKey> := {};
    FilterKeepsAll(s.order, k => k !in gone);
    assert s.links - gone == s.links;
  }

  /** Deleting two batches of keys is deleting their union. */
  lemma DeleteKeysTwice(s: Store, a: set<InviteKey>, b: set<InviteKey>)
    ensures DeleteKeys(DeleteKeys(s, a), b) == DeleteKeys(s, a + b)
  {
    FilterTwice(s.order, k => k !in a, k => k !in b, k => k !in a + b);
  }

  /** Stores a new role list for an existing key (`set_raw(invite, "roles", ...)`). */
  function SetRoles(s: Store, k: InviteKey, roles: seq<RoleId>): (r: Store)
    ensures r.enabled == s.enabled && r.order == s.order && r.links.Keys == s.links.Keys
    ensures forall k' :: k' in s.links && k' != k ==> r.links[k'] == s.links[k']
    ensures k in s.links ==> r.links[k] == Link(roles, s.links[k].uses)
  {
    if k in s.links then s.(links := s.links[k := s.links[k].(roles := roles)]) else s
  }

  /** Storing a duplicate-free role list keeps the store valid, and a
      non-empty one keeps every entry non-empty. */
  lemma SetRolesKeeps(s: Store, k: InviteKey, roles: seq<RoleId>)
    ensures Valid(s) && Distinct(roles) ==> Valid(SetRoles(s, k, roles))
    ensures NoEmptyLinks(s) && roles != [] ==> NoEmptyLinks(SetRoles(s, k, roles))
  {
  }

  /** Storing a key's own role list again changes nothing. */
  lemma SetRolesSame(s: Store, k: InviteKey)
    requires k in s.links
    ensures SetRoles(s, k, s.links[k].roles) == s
  {
    assert s.links[k := s.links[k].(roles := s.links[k].roles)] == s.links;
  }

  /** What was stored under a key does not matter once the key is deleted. */
  lemma DeleteAfterSetRoles(s: Store, k: InviteKey, roles: seq<RoleId>)
    ensures DeleteKeys(SetRoles(s, k, roles), {k}) == DeleteKeys(s, {k})
  {
    if k in s.links {
      assert s.links[k := s.links[k].(roles := roles)] - {k} == s.links - {k};
    }
  }

  /** Records a new use count for an existing key (`set_raw(invite, "uses", ...)`). */
  function SetUses(s: Store, k: InviteKey, uses: nat): (r: Store)
    ensures r.enabled == s.enabled && r.order == s.order && r.links.Keys == s.links.Keys
    ensures forall k' :: k' in s.links && k' != k ==> r.links[k'] == s.links[k']
    ensures k in s.links ==> r.links[k] == Link(s.links[k].roles, uses)
  {
    if k in s.links then s.(links := s.links[k := s.links[k].(uses := uses)]) else s
  }

  /** Recording a use count keeps the store's integrity and its role lists. */
  lemma SetUsesKeeps(s: Store, k: InviteKey, uses: nat)
    ensures Valid(s) ==> Valid(SetUses(s, k, uses))
    ensures NoEmptyLinks(s) ==> NoEmptyLinks(SetUses(s, k, uses))
  {
  }

  /** `API.add_invite(guild, key, [role])`: appends the role id to the key's
      list, creating the key (last in the order, with the given use count)
      when it is absent. */
  function LinkRole(s: Store, k: InviteKey, role: RoleId, uses: nat): (r: Store)
    ensures r.enabled == s.enabled
    ensures r.links.Keys == s.links.Keys + {k}
    ensures r.order == if k in s.links then s.order else s.order + [k]
    ensures r.links[k] == if k in s.links then Link(s.links[k].roles + [role], s.links[k].uses)
                          else Link([role], uses)
    ensures forall k' :: k' in s.links && k' != k ==> r.links[k'] == s.links[k']
  {
    if k in s.links then SetRoles(s, k, s.links[k].roles + [role])
    else Store(s.enabled, s.order + [k], s.links[k := Link([role], uses)])
  }
}
