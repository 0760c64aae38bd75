/** Parts of roleinvite/roleinvite.py modelled as they are written, where
    that differs from what the surrounding code and the documented
    behaviour evidently intend; each comes with a concrete input on which
    the written code and the intended model (`Registry`, `Attribution`)
    part ways. */
module AsWritten {
  import opened Wrappers
  import opened Seqs
  import opened Links
  import Registry
  import Attribution

  // ---------------------------------------------------------------------
  // line 135: removing from the list that is being iterated

  /** The position of the first occurrence of `x` in `l`. */
  function FirstIndex(l: seq<RoleId>, x: RoleId): (i: nat)
    requires x in l
    ensures i < |l| && l[i] == x && x !in l[..i]
  {
    if l[0] == x then 0
    else
      var j := FirstIndex(l[1..], x);
      assert l[..j + 1] == [l[0]] + l[1..][..j];
      j + 1
  }

  /** `list.remove(x)`: drops the first occurrence of `x` and keeps the
      order of the rest. Python raises `ValueError` for an absent `x`; the
      only call (line 135) removes an id it has just read from the list. */
  function RemoveFirst(l: seq<RoleId>, x: RoleId): (r: seq<RoleId>)
    requires x in l
    ensures r == l[..FirstIndex(l, x)] + l[FirstIndex(l, x) + 1..]
  {
    if l[0] == x then l[1..]
    else
      var rest := RemoveFirst(l[1..], x);
      var j := FirstIndex(l[1..], x);
      assert l[..j + 1] == [l[0]] + l[1..][..j];
      assert l[j + 2..] == l[1..][j + 1..];
      [l[0]] + rest
  }

  /** Where the walk of `roles_iteration` ends: the list as mutated, and
      whether the role being added was met. */
  datatype Walk = Walk(list: seq<RoleId>, duplicate: bool)

  /** The loop of lines 129-142 as written: Python's list iterator advances
      by position, and a stale id removed at line 135 shifts its successor
      into the position already visited, so that successor is never looked at.
      The walk only removes ids, and it reports a duplicate only for a role
      the list holds. */
  function IterateAsWritten(l: seq<RoleId>, i: nat, srv: Server, role: RoleId): (w: Walk)
    ensures forall x :: x in w.list ==> x in l
    ensures w.duplicate ==> role in l && role in srv.roles
    decreases |l| - i
  {
    if i >= |l| then Walk(l, false)
    else if l[i] !in srv.roles then
      var shorter := RemoveFirst(l, l[i]);
      assert forall x :: x in shorter ==> x in l;
      IterateAsWritten(shorter, i + 1, srv, role)
    else if l[i] == role then Walk(l, true)
    else IterateAsWritten(l, i + 1, srv, role)
  }

  /** A stale id right before the role being added hides it: the walk
      finds no duplicate, the role is appended a second time (line 192, 204 or 217),
      and the stored list holds it twice. Iterating a copy, `Registry.Add`
      answers "already linked" and changes nothing. */
  lemma StaleIdHidesDuplicate()
    ensures var srv := Server([], map[2 := 1], 3, true, true, false);
      var s := Store(true, [Main], map[Main := Link([1, 2], 0)]);
      var w := IterateAsWritten([1, 2], 0, srv, 2);
      && w == Walk([2], false)
      && LinkRole(SetRoles(s, Main, w.list), Main, 2, 0).links[Main].roles == [2, 2]
      && !Distinct(LinkRole(SetRoles(s, Main, w.list), Main, 2, 0).links[Main].roles)
      && Registry.Add(s, 2, Registry.Unresolved("main"), srv, true) == Registry.Reply(s, Registry.Rejected(Registry.AlreadyLinked))
  {
    var srv := Server([], map[2 := 1], 3, true, true, false);
    WalkSkipsDuplicate(srv);
    AddSeesDuplicate(srv);
  }

  lemma WalkSkipsDuplicate(srv: Server)
    requires srv.roles == map[2 := 1]
    ensures var s := Store(true, [Main], map[Main := Link([1, 2], 0)]);
      && IterateAsWritten([1, 2], 0, srv, 2) == Walk([2], false)
      && LinkRole(SetRoles(s, Main, [2]), Main, 2, 0).links[Main].roles == [2, 2]
      && !Distinct([2, 2])
  {
    assert RemoveFirst([1, 2], 1) == [2];
    assert IterateAsWritten([1, 2], 0, srv, 2) == IterateAsWritten([2], 1, srv, 2);
    assert [2, 2][0] == [2, 2][1];
  }

  lemma AddSeesDuplicate(srv: Server)
    requires srv == Server([], map[2 := 1], 3, true, true, false)
    ensures var s := Store(true, [Main], map[Main := Link([1, 2], 0)]);
      Registry.Add(s, 2, Registry.Unresolved("main"), srv, true) == Registry.Reply(s, Registry.Rejected(Registry.AlreadyLinked))
  {
    assert Found([1, 2], srv) == [2] by {
      assert [1, 2][..1] == [1];
      assert [1][..0] == [];
    }
  }

  // ---------------------------------------------------------------------
  // lines 432, 478-479 and 488: `add_roles` as written

  /** `roles` without every id listed in `drop` (the comprehension of line 478). */
  function WithoutAll(roles: seq<RoleId>, drop: seq<RoleId>): seq<RoleId> {
    Filter(roles, x => x !in drop)
  }

  /** How one `add_roles(k)` as written ends: it raises, ending the join
      handler with whatever it already stored, or it returns a step. */
  datatype Written = Raised(store: Store) | Returned(step: Attribution.Step)

  /** `add_roles(k)` as written. Line 432 raises KeyError for a key with no
      entry. The hierarchy step (lines 477-479) rebuilds the list from the
      raw ids read at line 432 minus the roles that sit too high, so stale
      ids removed at line 456 come back, and the list now holds integers:
      line 498 reads `.id` of each and raises unless the list is empty. The
      emptiness test of line 488 reads the unpruned list, so it holds only
      for an entry that was already empty. Whatever it grants the bot may
      give, and no key is created. */
  function GrantRolesAsWritten(s: Store, k: InviteKey, srv: Server): (r: Written)
    ensures (if r.Raised? then r.store else r.step.store).links.Keys <= s.links.Keys
    ensures r.Returned? ==> |r.step.grants| <= 1
    ensures r.Returned? ==> forall g, x :: g in r.step.grants && x in g.roles ==> Grantable(srv, x)
  {
    if k !in s.links then Raised(s)
    else
      var roles := s.links[k].roles;
      var found := Found(roles, srv);
      var s1 := if Lost(roles, srv) != [] then SetRoles(s, k, found) else s;
      if !srv.manageRoles then Returned(Attribution.Step(s1.(enabled := false), [], false))
      else
        var high := TooHigh(found, srv);
        var given := if high != [] then WithoutAll(roles, high) else found;
        var s2 := if high != [] then SetRoles(s1, k, given) else s1;
        if roles == [] then Returned(Attribution.Step(DeleteKeys(s2, {k}), [], false))
        else if high != [] && given != [] then Raised(s2)
        else Returned(Attribution.Step(s2, [Attribution.Grant(given, Attribution.ReasonFor(k))], true))
  }

  /** A guild with no `default` entry: the lookup at line 432 fails before
      any role is given, although the `main` entry holds a role the bot may
      give; the intended join ends by granting it. */
  lemma MissingDefaultStopsJoin()
    ensures var srv := Server([], map[5 := 1], 3, true, true, false);
      var s := Store(true, [Main], map[Main := Link([5], 0)]);
      && GrantRolesAsWritten(s, Default, srv) == Raised(s)
      && var r := Attribution.Join(s, srv);
         r.grants != [] && r.grants[|r.grants| - 1] == Attribution.Grant([5], Attribution.MainRoles)
  {
    var srv := Server([], map[5 := 1], 3, true, true, false);
    var s := Store(true, [Main], map[Main := Link([5], 0)]);
    assert Valid(s);
    assert Attribution.GrantRoles(s, Default, srv).proceed;
    assert Attribution.Attributed(s, srv) == Main by {
      assert !Attribution.Used(Main, s.links, srv.invites);
      assert Attribution.FirstUsed(s.order, s.links, srv.invites) == 1;
    }
    SingleUsable(5, srv);
    Attribution.JoinGrantsAttributed(s, srv);
  }

  /** A single grantable role survives both filters. */
  lemma SingleUsable(x: RoleId, srv: Server)
    requires Grantable(srv, x)
    ensures Usable(Found([x], srv), srv) == [x]
  {
    assert [x][..0] == [];
    assert Found([x], srv) == [x];
  }

  /** An entry all of whose roles now sit above the bot: as written the
      entry is stored with no role and kept, and the join goes on with an
      empty grant; the intended step deletes the entry and stops the join. */
  lemma EmptiedEntryKeptAsWritten(s: Store, k: InviteKey, srv: Server)
    requires k in s.links && s.links[k].roles != [] && srv.manageRoles
    requires forall x :: x in s.links[k].roles ==> x in srv.roles && srv.roles[x] >= srv.topRole
    ensures var st := GrantRolesAsWritten(s, k, srv);
      && st.Returned? && st.step.proceed
      && k in st.step.store.links && st.step.store.links[k].roles == []
      && st.step.grants == [Attribution.Grant([], Attribution.ReasonFor(k))]
    ensures var g := Attribution.GrantRoles(s, k, srv);
      !g.proceed && k !in g.store.links && g.grants == []
  {
    EmptiedAsWritten(s.links[k].roles, s, k, srv);
    EmptiedIntended(s.links[k].roles, s, k, srv);
  }

  lemma EmptiedAsWritten(roles: seq<RoleId>, s: Store, k: InviteKey, srv: Server)
    requires k in s.links && s.links[k].roles == roles && roles != [] && srv.manageRoles
    requires forall x :: x in roles ==> x in srv.roles && srv.roles[x] >= srv.topRole
    ensures var st := GrantRolesAsWritten(s, k, srv);
      && st.Returned? && st.step.proceed
      && k in st.step.store.links && st.step.store.links[k].roles == []
      && st.step.grants == [Attribution.Grant([], Attribution.ReasonFor(k))]
  {
    var found := Found(roles, srv);
    var high := TooHigh(found, srv);
    assert forall x :: x in roles ==> x in found;
    assert forall x :: x in roles ==> x in high;
    assert high != [] by {
      assert roles[0] in roles;
    }
    FilterNone(roles, x => x !in high);
    var s1 := if Lost(roles, srv) != [] then SetRoles(s, k, found) else s;
    assert GrantRolesAsWritten(s, k, srv) ==
           Returned(Attribution.Step(SetRoles(s1, k, []), [Attribution.Grant([], Attribution.ReasonFor(k))], true));
  }

  lemma EmptiedIntended(roles: seq<RoleId>, s: Store, k: InviteKey, srv: Server)
    requires k in s.links && s.links[k].roles == roles && srv.manageRoles
    requires forall x :: x in roles ==> x in srv.roles && srv.roles[x] >= srv.topRole
    ensures var g := Attribution.GrantRoles(s, k, srv);
      !g.proceed && k !in g.store.links && g.grants == []
  {
    assert forall x :: x in Found(roles, srv) ==> !Grantable(srv, x);
    FilterNone(Found(roles, srv), r => Grantable(srv, r));
    Attribution.GrantRolesEffect(s, k, srv);
  }

  /** The smallest such entry: `default` holding one role that now sits above
      the bot. */
  lemma EmptiedEntryIsKept()
    ensures var srv := Server([], map[1 := 5], 3, true, true, false);
      var s := Store(true, [Default], map[Default := Link([1], 0)]);
      var st := GrantRolesAsWritten(s, Default, srv);
      var g := Attribution.GrantRoles(s, Default, srv);
      && st.Returned? && st.step.proceed
      && Default in st.step.store.links && st.step.store.links[Default].roles == []
      && !g.proceed && Default !in g.store.links
  {
    var srv := Server([], map[1 := 5], 3, true, true, false);
    var s := Store(true, [Default], map[Default := Link([1], 0)]);
    EmptiedEntryKeptAsWritten(s, Default, srv);
  }

  /** An entry holding a role that sits too high next to one that does
      not: as written the rebuilt list keeps every id that is not too high,
      stale ones included, and is stored at line 479; line 498 is then handed
      raw ids and raises, so no role at all is granted. */
  lemma TooHighRoleRaisesAsWritten(s: Store, k: InviteKey, srv: Server)
    requires k in s.links && srv.manageRoles
    requires exists x :: x in s.links[k].roles && x in srv.roles && srv.roles[x] >= srv.topRole
    requires exists y :: y in s.links[k].roles && !(y in srv.roles && srv.roles[y] >= srv.topRole)
    ensures var st := GrantRolesAsWritten(s, k, srv);
      && st.Raised? && k in st.store.links
      && forall x :: x in s.links[k].roles && !(x in srv.roles && srv.roles[x] >= srv.topRole) ==>
           x in st.store.links[k].roles
  {
    var roles := s.links[k].roles;
    HighAndKept(roles, srv);
    var found := Found(roles, srv);
    var s1 := if Lost(roles, srv) != [] then SetRoles(s, k, found) else s;
    var given := WithoutAll(roles, TooHigh(found, srv));
    assert GrantRolesAsWritten(s, k, srv) == Raised(SetRoles(s1, k, given));
  }

  /** With one id too high and one not, the hierarchy step of line 478 finds
      roles to drop and keeps every id that is not too high. */
  lemma HighAndKept(roles: seq<RoleId>, srv: Server)
    requires exists x :: x in roles && x in srv.roles && srv.roles[x] >= srv.topRole
    requires exists y :: y in roles && !(y in srv.roles && srv.roles[y] >= srv.topRole)
    ensures roles != [] && TooHigh(Found(roles, srv), srv) != []
    ensures var given := WithoutAll(roles, TooHigh(Found(roles, srv), srv));
      && given != []
      && forall z :: z in roles && !(z in srv.roles && srv.roles[z] >= srv.topRole) ==> z in given
  {
    var found := Found(roles, srv);
    var x :| x in roles && x in srv.roles && srv.roles[x] >= srv.topRole;
    var y :| y in roles && !(y in srv.roles && srv.roles[y] >= srv.topRole);
    assert x in found;
    var high := TooHigh(found, srv);
    assert x in high;
    assert forall z :: z in high ==> z in srv.roles && srv.roles[z] >= srv.topRole;
    assert y in WithoutAll(roles, high);
  }

  /** The smallest entry with a stale id: `default` holding the stale id 1
      and role 2, which sits above the bot. As written id 1 is stored again
      and the handler raises; the intended step deletes the entry and stops
      the join. */
  lemma StaleIdComesBack()
    ensures var srv := Server([], map[2 := 5], 3, true, true, false);
      var s := Store(true, [Default], map[Default := Link([1, 2], 0)]);
      var st := GrantRolesAsWritten(s, Default, srv);
      var g := Attribution.GrantRoles(s, Default, srv);
      && st.Raised? && 1 !in srv.roles && 1 in st.store.links[Default].roles
      && !g.proceed && g.grants == [] && Default !in g.store.links
  {
    var srv := Server([], map[2 := 5], 3, true, true, false);
    var s := Store(true, [Default], map[Default := Link([1, 2], 0)]);
    assert 2 in s.links[Default].roles && 1 in s.links[Default].roles;
    TooHighRoleRaisesAsWritten(s, Default, srv);
    NoneGrantable([1, 2], srv);
    Attribution.GrantRolesEffect(s, Default, srv);
  }

  /** No role of `[1, 2]` may be given when only role 2 exists, above the bot. */
  lemma NoneGrantable(roles: seq<RoleId>, srv: Server)
    requires roles == [1, 2] && srv.roles == map[2 := 5] && srv.topRole == 3
    ensures Usable(Found(roles, srv), srv) == []
  {
    assert forall x :: x in Found(roles, srv) ==> !Grantable(srv, x);
    FilterNone(Found(roles, srv), r => Grantable(srv, r));
  }

  /** One role above the bot blocks the others: `default` holding role 2,
      above the bot, and role 3, below it. As written the handler raises and
      grants nothing; the intended step grants role 3 and not role 2. */
  lemma TooHighRoleBlocksGrant()
    ensures var srv := Server([], map[2 := 5, 3 := 1], 3, true, true, false);
      var s := Store(true, [Default], map[Default := Link([2, 3], 0)]);
      var g := Attribution.GrantRoles(s, Default, srv);
      && GrantRolesAsWritten(s, Default, srv).Raised?
      && g.proceed && |g.grants| == 1 && g.grants[0].reason == Attribution.DefaultRoles
      && 3 in g.grants[0].roles && 2 !in g.grants[0].roles
  {
    var srv := Server([], map[2 := 5, 3 := 1], 3, true, true, false);
    var s := Store(true, [Default], map[Default := Link([2, 3], 0)]);
    assert 2 in s.links[Default].roles && 3 in s.links[Default].roles;
    TooHighRoleRaisesAsWritten(s, Default, srv);
    Attribution.UsableOfFound([2, 3], srv);
    assert 3 in Usable(Found([2, 3], srv), srv);
    Attribution.GrantRolesEffect(s, Default, srv);
  }

  // ---------------------------------------------------------------------
  // line 529: pruning a dead invite

  /** How the scan of lines 522-544 ends as written. */
  datatype ScanEnd = Crashed | StoppedAt(i: nat) | Finished

  /** The scan as written: for a key whose invite is gone, line 529 reads
      `.url` of `None` and the handler raises; the dead key stays and no
      `main` role is given. It stops only at a used invite, raises only at a
      dead one, and runs to the end only when no scanned invite is gone. */
  function ScanAsWritten(keys: seq<InviteKey>, links: map<InviteKey, Link>, invites: seq<LiveInvite>, i: nat): (e: ScanEnd)
    ensures e.StoppedAt? ==> i <= e.i < |keys| && Attribution.Used(keys[e.i], links, invites)
    ensures e.Crashed? ==> exists j :: i <= j < |keys| && Attribution.Dead(keys[j], invites)
    ensures e.Finished? ==> forall j :: i <= j < |keys| ==> !Attribution.Dead(keys[j], invites)
    decreases |keys| - i
  {
    if i >= |keys| then Finished
    else if !keys[i].Concrete? then ScanAsWritten(keys, links, invites, i + 1)
    else match FindInvite(invites, keys[i].url)
      case None => Crashed
      case Some(live) =>
        if keys[i] in links && live.uses > links[keys[i]].uses then StoppedAt(i)
        else ScanAsWritten(keys, links, invites, i + 1)
  }

  /** A deleted invite, whatever its URL, between a grantable `default`
      entry and `main`: as written the `default` step lets the join go on,
      and the scan then raises at line 529; the intended join deletes the
      dead key and ends by granting the `main` role. */
  lemma DeadInviteStopsScan(u: Url)
    ensures var srv := Server([], map[5 := 1], 3, true, true, false);
      var s := Store(true, [Default, Concrete(u), Main],
                     map[Default := Link([5], 0), Concrete(u) := Link([5], 0), Main := Link([5], 0)]);
      && GrantRolesAsWritten(s, Default, srv).Returned?
      && GrantRolesAsWritten(s, Default, srv).step.proceed
      && ScanAsWritten(s.order, s.links, srv.invites, 0) == Crashed
      && var r := Attribution.Join(s, srv);
         && r.grants != [] && r.grants[|r.grants| - 1] == Attribution.Grant([5], Attribution.MainRoles)
         && Concrete(u) !in r.store.links
  {
    var srv := Server([], map[5 := 1], 3, true, true, false);
    var s := Store(true, [Default, Concrete(u), Main],
                   map[Default := Link([5], 0), Concrete(u) := Link([5], 0), Main := Link([5], 0)]);
    DefaultStepAsWritten(s, srv);
    assert ScanAsWritten(s.order, s.links, srv.invites, 0) == Crashed by {
      assert ScanAsWritten(s.order, s.links, srv.invites, 0) == ScanAsWritten(s.order, s.links, srv.invites, 1);
    }
    IntendedJoinPastDead(s, srv, Concrete(u));
  }

  /** The intended join on that store grants `main`'s role last and prunes
      the dead key. */
  lemma IntendedJoinPastDead(s: Store, srv: Server, gone: InviteKey)
    requires srv == Server([], map[5 := 1], 3, true, true, false)
    requires gone.Concrete?
    requires s == Store(true, [Default, gone, Main],
                        map[Default := Link([5], 0), gone := Link([5], 0), Main := Link([5], 0)])
    ensures var r := Attribution.Join(s, srv);
      && r.grants != [] && r.grants[|r.grants| - 1] == Attribution.Grant([5], Attribution.MainRoles)
      && gone !in r.store.links
  {
    DeadInviteStore(s, srv, gone);
    JoinPastDeadInvite(s, srv, gone);
    JoinFallsBackToMain(s, srv, gone, 5);
  }

  /** That store is valid, and its `default` step lets the join go on. */
  lemma DeadInviteStore(s: Store, srv: Server, gone: InviteKey)
    requires srv == Server([], map[5 := 1], 3, true, true, false)
    requires gone.Concrete?
    requires s == Store(true, [Default, gone, Main],
                        map[Default := Link([5], 0), gone := Link([5], 0), Main := Link([5], 0)])
    ensures Valid(s) && Attribution.GrantRoles(s, Default, srv).proceed
  {
    ThreeKeysValid(s, gone);
    DefaultProceeds(s, srv);
  }

  lemma ThreeKeysValid(s: Store, gone: InviteKey)
    requires gone.Concrete?
    requires s.order == [Default, gone, Main] && s.links.Keys == {Default, gone, Main}
    requires forall k :: k in s.links ==> s.links[k].roles == [5]
    ensures Valid(s)
  {
    assert s.order[0] != s.order[1] && s.order[0] != s.order[2] && s.order[1] != s.order[2];
    assert Distinct([5]);
  }

  lemma DefaultProceeds(s: Store, srv: Server)
    requires srv.roles == map[5 := 1] && srv.topRole == 3 && srv.manageRoles
    requires Default in s.links && s.links[Default].roles == [5]
    ensures Attribution.GrantRoles(s, Default, srv).proceed
  {
    SingleUsable(5, srv);
    Attribution.GrantRolesEffect(s, Default, srv);
  }

  /** A join that gets past `default`, finds no used invite and passes a
      dead key ends by granting `main`'s usable roles, and prunes that key. */
  lemma JoinFallsBackToMain(s: Store, srv: Server, gone: InviteKey, role: RoleId)
    requires Valid(s) && s.enabled && !srv.invitesForbidden && srv.manageRoles
    requires Attribution.GrantRoles(s, Default, srv).proceed
    requires Attribution.Attributed(s, srv) == Main && Main in s.links
    requires Usable(Found(s.links[Main].roles, srv), srv) == [role]
    requires gone in s.order[..Attribution.FirstUsed(s.order, s.links, srv.invites)]
    requires Attribution.Dead(gone, srv.invites)
    ensures var r := Attribution.Join(s, srv);
      && r.grants != [] && r.grants[|r.grants| - 1] == Attribution.Grant([role], Attribution.MainRoles)
      && gone !in r.store.links
  {
    Attribution.JoinGrantsAttributed(s, srv);
    Attribution.JoinPrunesDead(s, srv);
  }

  /** As written, a `default` entry holding one grantable role grants it and
      lets the join go on. */
  lemma DefaultStepAsWritten(s: Store, srv: Server)
    requires srv.roles == map[5 := 1] && srv.topRole == 3 && srv.manageRoles
    requires Default in s.links && s.links[Default].roles == [5]
    ensures GrantRolesAsWritten(s, Default, srv).Returned?
    ensures GrantRolesAsWritten(s, Default, srv).step.proceed
  {
    var roles := s.links[Default].roles;
    assert roles[..0] == [] && roles[..1] == roles;
    FoundSnoc(roles, 0, srv);
    assert Found(roles, srv) == [5];
    UsableSnoc(Found(roles, srv), 0, srv);
    assert Found(roles, srv)[..0] == [] && Found(roles, srv)[..1] == Found(roles, srv);
    assert TooHigh(Found(roles, srv), srv) == [];
  }

  /** The scan of that store attributes the join to `main`, past the dead key. */
  lemma JoinPastDeadInvite(s: Store, srv: Server, gone: InviteKey)
    requires srv == Server([], map[5 := 1], 3, true, true, false)
    requires gone.Concrete?
    requires s == Store(true, [Default, gone, Main],
                        map[Default := Link([5], 0), gone := Link([5], 0), Main := Link([5], 0)])
    ensures Attribution.FirstUsed(s.order, s.links, srv.invites) == 3
    ensures Attribution.Attributed(s, srv) == Main
    ensures gone in s.order[..3] && Attribution.Dead(gone, srv.invites)
    ensures Usable(Found(s.links[Main].roles, srv), srv) == [5]
  {
    NoneUsed(Default, gone, Main, s.links, srv.invites);
    assert s.order[..3] == s.order;
    SingleUsable(5, srv);
  }

  /** Three keys none of which is used: the scan runs past all of them. */
  lemma NoneUsed(a: InviteKey, b: InviteKey, c: InviteKey, links: map<InviteKey, Link>, invites: seq<LiveInvite>)
    requires !Attribution.Used(a, links, invites) && !Attribution.Used(b, links, invites)
    requires !Attribution.Used(c, links, invites)
    ensures Attribution.FirstUsed([a, b, c], links, invites) == 3
  {
    assert [a, b, c][1..] == [b, c];
    assert [b, c][1..] == [c];
    assert [c][1..] == [];
  }
}
