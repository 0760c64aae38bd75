/** The join handler of roleinvite/roleinvite.py (`on_member_join` with its
    inner `add_roles`, lines 430-544) as a function from the store and the
    server snapshot to the new store and the role grants made, with the
    attribution, hierarchy and pruning properties it keeps. */
module Attribution {
  import opened Wrappers
  import opened Seqs
  import opened Links

  /** The tag of the audit-log reason given with a grant (lines 433-438). */
  datatype Reason = DefaultRoles | MainRoles | JoinedWith(url: Url)

  /** One `member.add_roles(*roles, reason=...)` call. */
  datatype Grant = Grant(roles: seq<RoleId>, reason: Reason)

  /** The result of one `add_roles(key)`: the new store, the grants made (none
      or one), and whether the join handler carries on (`True`) or returns. */
  datatype Step = Step(store: Store, grants: seq<Grant>, proceed: bool)

  datatype Joined = Joined(store: Store, grants: seq<Grant>)

  function ReasonFor(k: InviteKey): Reason {
    match k
    case Main => MainRoles
    case Default => DefaultRoles
    case Concrete(url) => JoinedWith(url)
  }

  /** The key a grant reason names. */
  function KeyOf(reason: Reason): (k: InviteKey)
    ensures ReasonFor(k) == reason
  {
    match reason
    case MainRoles => Main
    case DefaultRoles => Default
    case JoinedWith(url) => Concrete(url)
  }

  /** Each key names its own reason: `KeyOf` and `ReasonFor` are inverse. */
  lemma KeyOfReasonFor(k: InviteKey)
    ensures KeyOf(ReasonFor(k)) == k
    ensures ReasonFor(k).JoinedWith? <==> k.Concrete?
    ensures k.Concrete? ==> ReasonFor(k).url == k.url
  {
  }

  /** `add_roles(key)`, as intended: an absent entry grants nothing and lets
      the join go on; role ids missing from the server are dropped and stored;
      without `manage_roles` the guild is disabled and the join stops; roles at
      or above the bot's top role are dropped and stored; an entry left with no
      role is deleted and the join stops; otherwise the remaining roles are
      granted. */
  function GrantRoles(s: Store, k: InviteKey, srv: Server): Step {
    if k !in s.links then Step(s, [], true)
    else
      var found := Found(s.links[k].roles, srv);
      var s1 := SetRoles(s, k, found);
      if !srv.manageRoles then Step(s1.(enabled := false), [], false)
      else
        var usable := Usable(found, srv);
        if usable == [] then Step(DeleteKeys(s1, {k}), [], false)
        else Step(SetRoles(s1, k, usable), [Grant(usable, ReasonFor(k))], true)
  }

  /** A concrete key whose invite is no longer among the guild's invites. */
  predicate Dead(k: InviteKey, invites: seq<LiveInvite>) {
    k.Concrete? && FindInvite(invites, k.url).None?
  }

  /** A concrete key whose live invite has more uses than recorded: the
      invite the new member joined with (line 531). */
  predicate Used(k: InviteKey, links: map<InviteKey, Link>, invites: seq<LiveInvite>) {
    && k.Concrete? && k in links
    && FindInvite(invites, k.url).Some?
    && FindInvite(invites, k.url).value.uses > links[k].uses
  }

  /** The position of the first used key in `order`, or `|order|` if none is:
      first match wins. */
  function FirstUsed(order: seq<InviteKey>, links: map<InviteKey, Link>, invites: seq<LiveInvite>): (j: nat)
    ensures j <= |order|
    ensures forall i :: 0 <= i < j ==> !Used(order[i], links, invites)
    ensures j < |order| ==> Used(order[j], links, invites)
  {
    if order == [] then 0
    else if Used(order[0], links, invites) then 0
    else
      var j := FirstUsed(order[1..], links, invites);
      assert forall i :: 1 <= i < |order| ==> order[i] == order[1..][i - 1];
      1 + j
  }

  /** The dead keys among `keys`. */
  function DeadAmong(keys: seq<InviteKey>, invites: seq<LiveInvite>): set<InviteKey> {
    set k | k in keys && Dead(k, invites)
  }

  /** `on_member_join` (lines 501-544), as intended: a disabled guild does
      nothing; a forbidden invite listing disables the guild; the `default`
      roles come first, and the join stops if that step says so; then the keys
      are attributed (see `Attribute`). */
  function Join(s: Store, srv: Server): Joined {
    if !s.enabled then Joined(s, [])
    else if srv.invitesForbidden then Joined(s.(enabled := false), [])
    else
      var d := GrantRoles(s, Default, srv);
      if !d.proceed then Joined(d.store, d.grants)
      else
        var a := Attribute(s, d.store, srv);
        Joined(a.store, d.grants + a.grants)
  }

  /** The key whose roles a join grants after `default`: the first used key,
      or `main` when no key is used. */
  function Attributed(snapshot: Store, srv: Server): InviteKey {
    var j := FirstUsed(snapshot.order, snapshot.links, srv.invites);
    if j < |snapshot.order| then snapshot.order[j] else Main
  }

  /** The scan of lines 522-544 over the mapping as read at line 504
      (`snapshot`), applied to the current store `s`: the dead keys before
      the first used key are pruned, and the scan continues past them; the
      first used key's roles are granted and, if the join was not stopped, its
      live use count recorded; when no key is used the `main` roles are
      granted instead. */
  function Attribute(snapshot: Store, s: Store, srv: Server): Joined {
    var j := FirstUsed(snapshot.order, snapshot.links, srv.invites);
    var pruned := DeleteKeys(s, DeadAmong(snapshot.order[..j], srv.invites));
    if j < |snapshot.order| then
      var k := snapshot.order[j];
      var g := GrantRoles(pruned, k, srv);
      if !g.proceed then Joined(g.store, g.grants)
      else Joined(SetUses(g.store, k, FindInvite(srv.invites, k.url).value.uses), g.grants)
    else
      var m := GrantRoles(pruned, Main, srv);
      Joined(m.store, m.grants)
  }

  // ---------------------------------------------------------------------
  // add_roles

  /** What one `add_roles(k)` does: it touches only the entry of `k`; it
      grants, in one call, exactly the stored roles that exist and sit below
      the bot's top role, and stores that list; it disables the guild only
      when `manage_roles` is missing and the entry exists. */
  lemma GrantRolesEffect(s: Store, k: InviteKey, srv: Server)
    ensures var st := GrantRoles(s, k, srv);
      && (forall k' :: k' != k ==> (k' in st.store.links <==> k' in s.links))
      && (forall k' :: k' != k && k' in s.links ==> st.store.links[k'] == s.links[k'])
      && (forall k' :: k' != k ==> (k' in st.store.order <==> k' in s.order))
      && st.store.enabled == (s.enabled && (k !in s.links || srv.manageRoles))
      && (st.proceed <==> k !in s.links || (srv.manageRoles && Usable(Found(s.links[k].roles, srv), srv) != []))
      && (st.grants == [] <==> !(st.proceed && k in s.links))
      && (st.grants != [] ==>
            && st.grants == [Grant(Usable(Found(s.links[k].roles, srv), srv), ReasonFor(k))]
            && k in st.store.links
            && st.store.links[k] == Link(st.grants[0].roles, s.links[k].uses))
      && (k in s.links && !st.proceed && srv.manageRoles ==> k !in st.store.links)
  {
  }

  /** Roles are filtered twice (existence, then hierarchy); what survives is
      what `Grantable` admits, and nothing is invented. */
  lemma UsableOfFound(roles: seq<RoleId>, srv: Server)
    ensures forall r :: r in Usable(Found(roles, srv), srv) <==> r in roles && Grantable(srv, r)
  {
  }

  // ---------------------------------------------------------------------
  // the scan

  /** `s` holds what `snapshot` holds, except perhaps under `Default`. */
  ghost predicate AgreesBesideDefault(snapshot: Store, s: Store) {
    && (forall k :: k != Default ==> (k in s.links <==> k in snapshot.links))
    && (forall k :: k != Default && k in snapshot.links ==> s.links[k] == snapshot.links[k])
  }

  /** The scan is one `add_roles` on the attributed key, applied to the store
      with the dead keys pruned, followed (for an invite whose step let the
      join go on) by recording the live use count. */
  lemma AttributeUnfold(snapshot: Store, s: Store, srv: Server)
    ensures var key := Attributed(snapshot, srv);
      var j := FirstUsed(snapshot.order, snapshot.links, srv.invites);
      var pruned := DeleteKeys(s, DeadAmong(snapshot.order[..j], srv.invites));
      var g := GrantRoles(pruned, key, srv);
      && Attribute(snapshot, s, srv).grants == g.grants
      && Attribute(snapshot, s, srv).store ==
           if g.proceed && j < |snapshot.order|
           then SetUses(g.store, key, FindInvite(srv.invites, key.url).value.uses)
           else g.store
  {
  }

  /** The grants of the scan: at most one, for the attributed key (never
      `default`, never a pruned key), equal to that key's stored roles that
      exist and sit below the bot's top role; the key then stores exactly
      those roles and, for an invite, its live use count. */
  lemma AttributeGrants(snapshot: Store, s: Store, srv: Server)
    requires Valid(snapshot) && Valid(s) && AgreesBesideDefault(snapshot, s)
    ensures var a := Attribute(snapshot, s, srv);
      var key := Attributed(snapshot, srv);
      var j := FirstUsed(snapshot.order, snapshot.links, srv.invites);
      && key != Default && key !in DeadAmong(snapshot.order[..j], srv.invites)
      && (j == |snapshot.order| <==> key == Main)
      && (a.grants == [] <==> !(key in snapshot.links && srv.manageRoles &&
                                Usable(Found(snapshot.links[key].roles, srv), srv) != []))
      && (a.grants != [] ==>
            && a.grants == [Grant(Usable(Found(snapshot.links[key].roles, srv), srv), ReasonFor(key))]
            && key in a.store.links
            && a.store.links[key].roles == a.grants[0].roles
            && (key.Concrete? ==> FindInvite(srv.invites, key.url).Some? &&
                                  a.store.links[key].uses == FindInvite(srv.invites, key.url).value.uses))
  {
    var key := Attributed(snapshot, srv);
    var j := FirstUsed(snapshot.order, snapshot.links, srv.invites);
    var pruned := DeleteKeys(s, DeadAmong(snapshot.order[..j], srv.invites));
    PrunedKeepsAttributed(snapshot, s, srv);
    AttributeUnfold(snapshot, s, srv);
    GrantRolesEffect(pruned, key, srv);
  }

  /** The rest of the store after the scan: the guild is disabled only when
      the attributed entry exists and `manage_roles` is missing; the dead keys
      before the used one are gone; every other entry is kept; no key is
      created. */
  lemma AttributeFrame(snapshot: Store, s: Store, srv: Server)
    requires Valid(snapshot) && Valid(s) && AgreesBesideDefault(snapshot, s)
    ensures var a := Attribute(snapshot, s, srv);
      var key := Attributed(snapshot, srv);
      var j := FirstUsed(snapshot.order, snapshot.links, srv.invites);
      var dead := DeadAmong(snapshot.order[..j], srv.invites);
      && a.store.enabled == (s.enabled && (key !in snapshot.links || srv.manageRoles))
      && (forall k :: k in dead ==> k !in a.store.links)
      && (forall k :: k in s.links && k != key && k !in dead ==> k in a.store.links && a.store.links[k] == s.links[k])
      && a.store.links.Keys <= s.links.Keys
  {
    var key := Attributed(snapshot, srv);
    var j := FirstUsed(snapshot.order, snapshot.links, srv.invites);
    var pruned := DeleteKeys(s, DeadAmong(snapshot.order[..j], srv.invites));
    PrunedKeepsAttributed(snapshot, s, srv);
    AttributeUnfold(snapshot, s, srv);
    GrantRolesEffect(pruned, key, srv);
  }

  /** The scan keeps the store valid, and leaves an entry empty only when it
      disabled the guild. */
  lemma AttributeValid(snapshot: Store, s: Store, srv: Server)
    requires Valid(snapshot) && Valid(s) && AgreesBesideDefault(snapshot, s)
    ensures var a := Attribute(snapshot, s, srv);
      && Valid(a.store)
      && (NoEmptyLinks(s) ==> NoEmptyLinks(a.store) || !a.store.enabled)
  {
    var key := Attributed(snapshot, srv);
    var j := FirstUsed(snapshot.order, snapshot.links, srv.invites);
    var pruned := DeleteKeys(s, DeadAmong(snapshot.order[..j], srv.invites));
    PrunedKeepsAttributed(snapshot, s, srv);
    AttributeUnfold(snapshot, s, srv);
    GrantRolesValid(pruned, key, srv);
    var g := GrantRoles(pruned, key, srv);
    if g.proceed && j < |snapshot.order| {
      SetUsesKeeps(g.store, key, FindInvite(srv.invites, key.url).value.uses);
    }
  }

  /** One `add_roles` keeps the store valid, and leaves an entry empty only
      when it disabled the guild. */
  lemma GrantRolesValid(s: Store, k: InviteKey, srv: Server)
    ensures var st := GrantRoles(s, k, srv);
      && (Valid(s) ==> Valid(st.store))
      && (NoEmptyLinks(s) ==> NoEmptyLinks(st.store) || !st.store.enabled)
  {
    if k in s.links {
      var found := Found(s.links[k].roles, srv);
      var s1 := SetRoles(s, k, found);
      SetRolesKeeps(s, k, found);
      if srv.manageRoles {
        var usable := Usable(found, srv);
        SetRolesKeeps(s1, k, usable);
        if usable == [] {
          assert GrantRoles(s, k, srv).store == DeleteKeys(s1, {k});
        } else {
          assert GrantRoles(s, k, srv).store == SetRoles(s1, k, usable);
        }
      }
    }
  }

  /** The attributed key survives the pruning of dead keys untouched. */
  lemma PrunedKeepsAttributed(snapshot: Store, s: Store, srv: Server)
    requires Valid(snapshot) && Valid(s) && AgreesBesideDefault(snapshot, s)
    ensures var key := Attributed(snapshot, srv);
      var j := FirstUsed(snapshot.order, snapshot.links, srv.invites);
      var dead := DeadAmong(snapshot.order[..j], srv.invites);
      var pruned := DeleteKeys(s, dead);
      && key != Default && key !in dead
      && (j == |snapshot.order| <==> key == Main)
      && (j < |snapshot.order| ==> Used(key, snapshot.links, srv.invites))
      && (key in pruned.links <==> key in snapshot.links)
      && (key in snapshot.links ==> pruned.links[key] == snapshot.links[key])
      && Valid(pruned)
      && (NoEmptyLinks(s) ==> NoEmptyLinks(pruned))
  {
    var j := FirstUsed(snapshot.order, snapshot.links, srv.invites);
    var dead := DeadAmong(snapshot.order[..j], srv.invites);
    var key := Attributed(snapshot, srv);
    assert forall k :: k in dead ==> Dead(k, srv.invites) && k.Concrete?;
    if j < |snapshot.order| {
      assert Used(snapshot.order[j], snapshot.links, srv.invites);
    }
  }

  // ---------------------------------------------------------------------
  // on_member_join

  /** A join on a disabled guild changes nothing and grants nothing. */
  lemma JoinWhenDisabled(s: Store, srv: Server)
    requires !s.enabled
    ensures Join(s, srv) == Joined(s, [])
  {
  }

  /** When listing the guild's invites is forbidden, the guild is disabled and
      nothing is granted. */
  lemma JoinWhenInvitesForbidden(s: Store, srv: Server)
    requires s.enabled && srv.invitesForbidden
    ensures Join(s, srv) == Joined(s.(enabled := false), [])
  {
  }

  /** The `default` step leaves the rest of the store as the scan reads it. */
  lemma DefaultStepAgrees(s: Store, srv: Server)
    requires Valid(s)
    ensures Valid(GrantRoles(s, Default, srv).store)
    ensures AgreesBesideDefault(s, GrantRoles(s, Default, srv).store)
  {
    GrantRolesEffect(s, Default, srv);
    GrantRolesValid(s, Default, srv);
  }

  /** The `default` step grants nothing or that entry's usable roles. */
  lemma DefaultStep(s: Store, srv: Server)
    ensures var d := GrantRoles(s, Default, srv);
      && |d.grants| <= 1
      && (d.grants != [] ==>
            Default in s.links &&
            d.grants == [Grant(Usable(Found(s.links[Default].roles, srv), srv), DefaultRoles)] &&
            Default in d.store.links && d.store.links[Default].roles == d.grants[0].roles)
      && d.store.enabled == (s.enabled && (Default !in s.links || srv.manageRoles))
  {
    GrantRolesEffect(s, Default, srv);
  }

  /** A join that gets past the `default` step is that step followed by the scan. */
  lemma JoinUnfold(s: Store, srv: Server)
    requires s.enabled && !srv.invitesForbidden
    ensures var d := GrantRoles(s, Default, srv);
      Join(s, srv) == if d.proceed then
                        var a := Attribute(s, d.store, srv);
                        Joined(a.store, d.grants + a.grants)
                      else Joined(d.store, d.grants)
  {
  }

  /** With `manage_roles` held, a `default` entry of which no role may be
      given stops the join: nothing is granted, `default` is deleted, and
      every other entry and the autorole flag stay as they were. */
  lemma JoinStopsAtDefault(s: Store, srv: Server)
    requires s.enabled && !srv.invitesForbidden && srv.manageRoles
    requires Default in s.links && Usable(Found(s.links[Default].roles, srv), srv) == []
    ensures Join(s, srv) == Joined(DeleteKeys(s, {Default}), [])
  {
    DeleteAfterSetRoles(s, Default, Found(s.links[Default].roles, srv));
  }

  /** Without `manage_roles` no role is granted, and the guild is disabled
      exactly when the join reaches an existing entry: `default`, the used
      invite, or `main` when no invite was used. */
  lemma JoinWithoutManageRoles(s: Store, srv: Server)
    requires Valid(s)
    requires !srv.manageRoles
    ensures Join(s, srv).grants == []
    ensures s.enabled && !srv.invitesForbidden && (Default in s.links || Main in s.links) ==>
            !Join(s, srv).store.enabled
    ensures s.enabled && !srv.invitesForbidden ==>
            (!Join(s, srv).store.enabled <==> Default in s.links || Attributed(s, srv) in s.links)
  {
    if s.enabled && !srv.invitesForbidden {
      var d := GrantRoles(s, Default, srv);
      GrantRolesEffect(s, Default, srv);
      if d.proceed {
        DefaultStepAgrees(s, srv);
        AttributeGrants(s, d.store, srv);
        AttributeFrame(s, d.store, srv);
      }
    }
  }

  /** The grant a key's entry calls for: its stored roles that exist and sit
      below the bot's top role, with the key's reason. */
  ghost function GrantFor(s: Store, k: InviteKey, srv: Server): Grant
    requires k in s.links
  {
    Grant(Usable(Found(s.links[k].roles, srv), srv), ReasonFor(k))
  }

  /** Joining two lists of at most one element each. */
  lemma ConcatOfAtMostOne<T>(x: seq<T>, y: seq<T>)
    requires |x| <= 1 && |y| <= 1
    ensures x == [] ==> x + y == y
    ensures y == [] ==> x + y == x
    ensures x != [] && y != [] ==> x + y == [x[0], y[0]]
  {
  }

  /** `gs` is nothing, `default`'s grant, the attributed key's grant, or
      both in that order. */
  ghost predicate GrantsForm(s: Store, srv: Server, gs: seq<Grant>) {
    var key := Attributed(s, srv);
    || gs == []
    || (Grants(s, Default, srv) && gs == [GrantFor(s, Default, srv)])
    || (Grants(s, key, srv) && gs == [GrantFor(s, key, srv)])
    || (Grants(s, Default, srv) && Grants(s, key, srv) && gs == [GrantFor(s, Default, srv), GrantFor(s, key, srv)])
  }

  /** `k`'s entry exists and has a role the bot may give. */
  ghost predicate Grants(s: Store, k: InviteKey, srv: Server) {
    k in s.links && GrantFor(s, k, srv).roles != []
  }

  /** A join grants `default`'s roles, the attributed key's roles, both in
      that order, or nothing. */
  lemma JoinGrantsForm(s: Store, srv: Server)
    requires Valid(s)
    ensures var r := Join(s, srv);
      var key := Attributed(s, srv);
      key != Default && GrantsForm(s, srv, r.grants)
  {
    var key := Attributed(s, srv);
    AttributedKey(s, srv);
    if s.enabled && !srv.invitesForbidden {
      var d := GrantRoles(s, Default, srv);
      DefaultStep(s, srv);
      JoinUnfold(s, srv);
      assert d.grants == [] || (Grants(s, Default, srv) && d.grants == [GrantFor(s, Default, srv)]);
      if d.proceed {
        DefaultStepAgrees(s, srv);
        AttributeGrants(s, d.store, srv);
        var a := Attribute(s, d.store, srv);
        assert a.grants == [] || (Grants(s, key, srv) && a.grants == [GrantFor(s, key, srv)]);
        assert Join(s, srv).grants == d.grants + a.grants;
        ConcatOfAtMostOne(d.grants, a.grants);
      } else {
        assert Join(s, srv).grants == d.grants;
      }
    }
  }

  /** The shape of a join's grants: at most two; a `default` grant comes
      first; a grant for an invite names the first key, in mapping order, whose
      live uses exceed the recorded uses; a `main` grant is made only when no
      key is used; and each grant is exactly the stored roles of its key that
      exist and sit below the bot's top role. */
  lemma JoinAttribution(s: Store, srv: Server)
    requires Valid(s)
    ensures var r := Join(s, srv);
      var j := FirstUsed(s.order, s.links, srv.invites);
      && |r.grants| <= 2
      && (forall i :: 0 <= i < |r.grants| && r.grants[i].reason == DefaultRoles ==> i == 0)
      && (forall i :: 0 <= i < |r.grants| && r.grants[i].reason.JoinedWith? ==>
            j < |s.order| && s.order[j] == Concrete(r.grants[i].reason.url))
      && (forall i :: 0 <= i < |r.grants| && r.grants[i].reason == MainRoles ==> j == |s.order|)
      && (forall i :: 0 <= i < |r.grants| ==>
            && KeyOf(r.grants[i].reason) in s.links
            && r.grants[i].roles == Usable(Found(s.links[KeyOf(r.grants[i].reason)].roles, srv), srv))
  {
    JoinGrantsForm(s, srv);
    GrantsFormAttribution(s, srv, Join(s, srv).grants);
  }

  lemma GrantsFormAttribution(s: Store, srv: Server, gs: seq<Grant>)
    requires Valid(s) && GrantsForm(s, srv, gs)
    ensures var j := FirstUsed(s.order, s.links, srv.invites);
      && |gs| <= 2
      && (forall i :: 0 <= i < |gs| && gs[i].reason == DefaultRoles ==> i == 0)
      && (forall i :: 0 <= i < |gs| && gs[i].reason.JoinedWith? ==>
            j < |s.order| && s.order[j] == Concrete(gs[i].reason.url))
      && (forall i :: 0 <= i < |gs| && gs[i].reason == MainRoles ==> j == |s.order|)
      && (forall i :: 0 <= i < |gs| ==>
            && KeyOf(gs[i].reason) in s.links
            && gs[i].roles == Usable(Found(s.links[KeyOf(gs[i].reason)].roles, srv), srv))
  {
    var key := Attributed(s, srv);
    AttributedKey(s, srv);
    KeyOfReasonFor(key);
    KeyOfReasonFor(Default);
    forall i | 0 <= i < |gs|
      ensures (i == 0 && Grants(s, Default, srv) && gs[i] == GrantFor(s, Default, srv))
              || (Grants(s, key, srv) && gs[i] == GrantFor(s, key, srv))
    {
    }
  }

  /** Where the attributed key comes from: the first used key of the order,
      or `main` past its end; never `default`. */
  lemma AttributedKey(s: Store, srv: Server)
    ensures var key := Attributed(s, srv);
      var j := FirstUsed(s.order, s.links, srv.invites);
      && key != Default
      && (j == |s.order| <==> key == Main)
      && (j < |s.order| ==> key == s.order[j] && key.Concrete?)
  {
    var j := FirstUsed(s.order, s.links, srv.invites);
    if j < |s.order| {
      assert Used(s.order[j], s.links, srv.invites);
    }
  }


  /** Every granted role exists and sits strictly below the bot's top role,
      and no grant is empty or names a role twice. */
  lemma JoinGrantsAreGrantable(s: Store, srv: Server)
    requires Valid(s)
    ensures var r := Join(s, srv);
      forall i :: 0 <= i < |r.grants| ==>
        && r.grants[i].roles != []
        && Distinct(r.grants[i].roles)
        && (forall x :: x in r.grants[i].roles ==> Grantable(srv, x))
  {
    JoinGrantsForm(s, srv);
    GrantsFormGrantable(s, srv, Join(s, srv).grants);
  }

  lemma GrantsFormGrantable(s: Store, srv: Server, gs: seq<Grant>)
    requires Valid(s) && GrantsForm(s, srv, gs)
    ensures forall i :: 0 <= i < |gs| ==>
        && gs[i].roles != []
        && Distinct(gs[i].roles)
        && (forall x :: x in gs[i].roles ==> Grantable(srv, x))
  {
    var key := Attributed(s, srv);
    forall i | 0 <= i < |gs|
      ensures && gs[i].roles != []
              && Distinct(gs[i].roles)
              && (forall x :: x in gs[i].roles ==> Grantable(srv, x))
    {
      if Grants(s, Default, srv) && gs[i] == GrantFor(s, Default, srv) {
        GrantForIsGrantable(s, Default, srv);
      } else {
        GrantForIsGrantable(s, key, srv);
      }
    }
  }


  /** The roles a key's grant names are all grantable and distinct. */
  lemma GrantForIsGrantable(s: Store, k: InviteKey, srv: Server)
    requires Valid(s) && k in s.links
    ensures var g := GrantFor(s, k, srv);
      Distinct(g.roles) && forall x :: x in g.roles ==> Grantable(srv, x)
  {
    UsableOfFound(s.links[k].roles, srv);
  }



  /** The store keeps what grant `g` handed out: its key stores exactly the
      granted roles and, for an invite, that invite's live use count. */
  ghost predicate Recorded(st: Store, srv: Server, g: Grant) {
    var k := KeyOf(g.reason);
    && k in st.links
    && st.links[k].roles == g.roles
    && (k.Concrete? ==> FindInvite(srv.invites, k.url).Some? &&
                        st.links[k].uses == FindInvite(srv.invites, k.url).value.uses)
  }

  /** The scan's grant is recorded in the store it leaves. */
  lemma AttributeRecords(snapshot: Store, s: Store, srv: Server)
    requires Valid(snapshot) && Valid(s) && AgreesBesideDefault(snapshot, s)
    ensures var a := Attribute(snapshot, s, srv);
      forall g :: g in a.grants ==> Recorded(a.store, srv, g)
  {
    AttributeGrants(snapshot, s, srv);
    KeyOfReasonFor(Attributed(snapshot, srv));
    var a := Attribute(snapshot, s, srv);
    if a.grants != [] {
      assert a.grants == [a.grants[0]];
      assert Recorded(a.store, srv, a.grants[0]);
    }
  }

  /** After a join, each key that was granted stores exactly the roles
      granted for it, and the invite that was used records its live use count. */
  lemma JoinRecordsGrants(s: Store, srv: Server)
    requires Valid(s)
    ensures var r := Join(s, srv);
      forall g :: g in r.grants ==> Recorded(r.store, srv, g)
  {
    if s.enabled && !srv.invitesForbidden {
      var d := GrantRoles(s, Default, srv);
      JoinUnfold(s, srv);
      DefaultRecorded(s, srv);
      if d.proceed {
        DefaultStepAgrees(s, srv);
        AttributeRecords(s, d.store, srv);
        DefaultSurvivesScan(s, srv);
        var a := Attribute(s, d.store, srv);
        RecordedBoth(a.store, srv, d.grants, a.grants);
      }
    }
  }

  /** The `default` step records what it grants. */
  lemma DefaultRecorded(s: Store, srv: Server)
    ensures var d := GrantRoles(s, Default, srv);
      forall g :: g in d.grants ==> Recorded(d.store, srv, g)
  {
    DefaultStep(s, srv);
    KeyOfReasonFor(Default);
  }

  /** The scan leaves the `default` entry as the `default` step stored it. */
  lemma DefaultSurvivesScan(s: Store, srv: Server)
    requires Valid(s) && GrantRoles(s, Default, srv).proceed
    ensures var d := GrantRoles(s, Default, srv);
      forall g :: g in d.grants ==> Recorded(Attribute(s, d.store, srv).store, srv, g)
  {
    var d := GrantRoles(s, Default, srv);
    DefaultStep(s, srv);
    KeyOfReasonFor(Default);
    DefaultStepAgrees(s, srv);
    AttributeFrame(s, d.store, srv);
    AttributedKey(s, srv);
  }

  lemma RecordedBoth(st: Store, srv: Server, x: seq<Grant>, y: seq<Grant>)
    requires forall g :: g in x ==> Recorded(st, srv, g)
    requires forall g :: g in y ==> Recorded(st, srv, g)
    ensures forall g :: g in x + y ==> Recorded(st, srv, g)
  {
  }


  /** `default` always applies: when the permissions hold and the entry has a
      role the bot may give, the first grant of every join is that entry's
      usable roles. */
  lemma JoinDefaultFirst(s: Store, srv: Server)
    requires s.enabled && !srv.invitesForbidden && srv.manageRoles
    requires Default in s.links && Usable(Found(s.links[Default].roles, srv), srv) != []
    ensures var r := Join(s, srv);
      |r.grants| >= 1 && r.grants[0] == Grant(Usable(Found(s.links[Default].roles, srv), srv), DefaultRoles)
  {
    GrantRolesEffect(s, Default, srv);
  }

  /** The positive side of attribution: once the `default` step lets the join
      go on, the attributed key's usable roles (the first used invite's, or
      `main`'s when no invite is used) are the last grant whenever there are any. */
  lemma JoinGrantsAttributed(s: Store, srv: Server)
    requires Valid(s)
    requires s.enabled && !srv.invitesForbidden && srv.manageRoles
    requires GrantRoles(s, Default, srv).proceed
    ensures var r := Join(s, srv);
      var k := Attributed(s, srv);
      k in s.links && Usable(Found(s.links[k].roles, srv), srv) != [] ==>
        r.grants[|r.grants| - 1] == Grant(Usable(Found(s.links[k].roles, srv), srv), ReasonFor(k))
  {
    DefaultStepAgrees(s, srv);
    AttributeGrants(s, GrantRoles(s, Default, srv).store, srv);
  }

  /** Pruning and "nothing else changes": once the scan runs, every dead key
      before the used one is gone; every other entry except `default` and the
      attributed one, `main` included when an invite wins, is kept as it was;
      no key is ever created. */
  lemma JoinPrunesDead(s: Store, srv: Server)
    requires Valid(s)
    requires s.enabled && !srv.invitesForbidden && GrantRoles(s, Default, srv).proceed
    ensures var r := Join(s, srv);
      var j := FirstUsed(s.order, s.links, srv.invites);
      && (forall k :: k in s.order[..j] && Dead(k, srv.invites) ==> k !in r.store.links)
      && (forall k :: k in s.links && k != Default && k !in DeadAmong(s.order[..j], srv.invites) &&
                      k != Attributed(s, srv) ==>
            k in r.store.links && r.store.links[k] == s.links[k])
      && r.store.links.Keys <= s.links.Keys
  {
    DefaultStepAgrees(s, srv);
    GrantRolesEffect(s, Default, srv);
    AttributeFrame(s, GrantRoles(s, Default, srv).store, srv);
  }

  /** A join keeps the store valid, and an entry left with no role survives
      it only when the join also disabled the guild (the stale-id pruning at
      line 456 is written before the `manage_roles` check at line 461). */
  lemma JoinPreservesValid(s: Store, srv: Server)
    requires Valid(s)
    ensures Valid(Join(s, srv).store)
    ensures NoEmptyLinks(s) ==> NoEmptyLinks(Join(s, srv).store) || !Join(s, srv).store.enabled
  {
    if s.enabled && !srv.invitesForbidden {
      var d := GrantRoles(s, Default, srv);
      GrantRolesEffect(s, Default, srv);
      if d.proceed {
        DefaultStepAgrees(s, srv);
        AttributeValid(s, d.store, srv);
      }
    }
  }
}
