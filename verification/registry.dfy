/** The chat server's in-memory registry and its socket event handlers.
    Each handler runs to completion before the next one starts, so each is
    one method. A handler's `emit`s are appended to `outbox`; its callback
    argument is the method's result. */
module ChatServer {
  import opened ChatTypes
  import opened JsArrays
  import opened Lookup
  import opened FanOut
  import opened Away

  /** What each member socket receives for a group message: the
      "no longer away" notice first when the sender had a marker, then the
      message itself, signed with the sending socket's name. */
  function GroupMessage(wasAway: bool, sender: string, data: string, from: Option<string>): (r: seq<Msg>)
    ensures |r| == if wasAway then 2 else 1
    ensures r[|r| - 1] == NewMessage(data, from)
    ensures wasAway ==> r[0] == UserNoLongerAway(sender)
  {
    (if wasAway then [UserNoLongerAway(sender)] else []) + [NewMessage(data, from)]
  }

  /** Every member socket gets the "no longer away" notice immediately
      before the message when the sender was away, and the message alone
      otherwise. */
  lemma GroupMessageOrder(ids: seq<ConnId>, wasAway: bool, sender: string, data: string,
                          from: Option<string>, k: nat)
    requires k < |ids|
    ensures wasAway ==>
      |Broadcast(ids, GroupMessage(wasAway, sender, data, from))| == 2 * |ids|
      && Broadcast(ids, GroupMessage(wasAway, sender, data, from))[2 * k] == Event(ids[k], UserNoLongerAway(sender))
      && Broadcast(ids, GroupMessage(wasAway, sender, data, from))[2 * k + 1] == Event(ids[k], NewMessage(data, from))
    ensures !wasAway ==>
      |Broadcast(ids, GroupMessage(wasAway, sender, data, from))| == |ids|
      && Broadcast(ids, GroupMessage(wasAway, sender, data, from))[k] == Event(ids[k], NewMessage(data, from))
  {
    var msgs := GroupMessage(wasAway, sender, data, from);
    if wasAway {
      BroadcastAt(ids, msgs, k, 0);
      BroadcastAt(ids, msgs, k, 1);
      assert k * 2 == 2 * k;
    } else {
      BroadcastAt(ids, msgs, k, 0);
    }
  }

  /** The `novo nick` loop over `connections`. */
  function RenameConns(cs: seq<Conn>, a: string, b: string): (r: seq<Conn>)
    ensures |r| == |cs| && forall k :: 0 <= k < |cs| ==> r[k].id == cs[k].id
  {
    seq(|cs|, k requires 0 <= k < |cs| =>
      if cs[k].username == Some(a) then cs[k].(username := Some(b)) else cs[k])
  }

  /** The `novo nick` loop over `groups`: only `admin` fields change; names,
      member lists and ban lists are left as they were. */
  function RenameAdmins(gs: seq<Group>, a: string, b: string): (r: seq<Group>)
    ensures |r| == |gs|
    ensures forall k :: 0 <= k < |gs| ==>
      r[k].name == gs[k].name && r[k].users == gs[k].users && r[k].bans == gs[k].bans
  {
    seq(|gs|, k requires 0 <= k < |gs| =>
      if gs[k].admin == a then gs[k].(admin := b) else gs[k])
  }

  /** When `b` names no socket and administers no group, renaming `a` to `b`
      leaves no trace of `a` in those fields and renaming back restores
      them. */
  lemma RenameRoundTrip(cs: seq<Conn>, gs: seq<Group>, a: string, b: string)
    requires a != b
    requires forall k :: 0 <= k < |cs| ==> cs[k].username != Some(b)
    requires forall k :: 0 <= k < |gs| ==> gs[k].admin != b
    ensures forall k :: 0 <= k < |cs| ==> RenameConns(cs, a, b)[k].username != Some(a)
    ensures forall k :: 0 <= k < |gs| ==> RenameAdmins(gs, a, b)[k].admin != a
    ensures RenameConns(RenameConns(cs, a, b), b, a) == cs
    ensures RenameAdmins(RenameAdmins(gs, a, b), b, a) == gs
  {
    var cs' := RenameConns(cs, a, b);
    var gs' := RenameAdmins(gs, a, b);
    assert forall k :: 0 <= k < |cs| ==> RenameConns(cs', b, a)[k] == cs[k];
    assert forall k :: 0 <= k < |gs| ==> RenameAdmins(gs', b, a)[k] == gs[k];
  }

  /** Approval's fan-out reaches exactly the sockets of the OTHER members:
      a socket hears "other user joined" iff it is logged in under a name of
      the new member list that is not the newcomer's. */
  lemma ApprovalNotifiesOthers(joined: seq<string>, user: string, cs: seq<Conn>, e: Event)
    ensures e in Broadcast(Deliveries(Without(joined, user), cs), [OtherUserJoined(user)]) <==>
      e.msg == OtherUserJoined(user)
      && (exists k :: 0 <= k < |cs| && cs[k].id == e.to && cs[k].username.Some?
                      && cs[k].username.value in joined && cs[k].username.value != user)
  {
    FanOutReaches(Without(joined, user), cs, [OtherUserJoined(user)], e);
  }

  class Registry {
    var users: seq<string>
    var groups: seq<Group>
    var connections: seq<Conn>
    var awayUsrs: seq<AwayMarker>
    var outbox: seq<Event>

    ghost predicate Valid()
      reads this
    {
      DistinctIds(connections)
    }

    predicate Live(id: ConnId)
      reads this
    {
      ConnIndex(connections, id).Some?
    }

    constructor ()
      ensures Valid()
      ensures users == [] && groups == [] && connections == [] && awayUsrs == [] && outbox == []
    {
      users, groups, connections, awayUsrs, outbox := [], [], [], [], [];
    }

    /** `io.on('connection')`: the new socket joins `connections`, with no
        name yet. */
    method Connect(id: ConnId)
      requires Valid() && !Live(id)
      modifies this
      ensures Valid() && Live(id)
      ensures connections == old(connections) + [Conn(id, None)]
      ensures users == old(users) && groups == old(groups) && awayUsrs == old(awayUsrs) && outbox == old(outbox)
    {
      connections := connections + [Conn(id, None)];
      ConnIndexUnique(connections, |connections| - 1);
    }

    /** `disconnect`: drop the socket's name from `users` (the intended
        removal: `splice(indexOf(..), 1)` as written costs the LAST user
        their entry when the name is unknown, see `SpliceIndexOf`) and drop
        the socket. Group membership is untouched. */
    method Disconnect(self: ConnId)
      requires Valid() && Live(self)
      modifies this
      ensures Valid() && !Live(self)
      ensures var k := ConnIndex(old(connections), self).value;
        users == RemoveName(old(users), old(connections)[k].username)
        && connections == old(connections)[..k] + old(connections)[k + 1..]
      ensures forall c :: c in connections <==> c in old(connections) && c.id != self
      ensures groups == old(groups) && awayUsrs == old(awayUsrs) && outbox == old(outbox)
    {
      var cs := connections;
      var k := ConnIndex(cs, self).value;
      RemoveConnSpec(cs, k);
      users := RemoveName(users, cs[k].username);
      connections := cs[..k] + cs[k + 1..];
    }

    /** `new user`: always answers true, names the socket and appends the
        name to `users`, taken or not. */
    method NewUser(self: ConnId, username: string) returns (ok: bool)
      requires Valid() && Live(self)
      modifies this
      ensures Valid() && ok
      ensures users == old(users) + [username]
      ensures var k := ConnIndex(old(connections), self).value;
        connections == old(connections)[k := Conn(self, Some(username))]
      ensures UsernameOf(connections, self) == Some(username)
      ensures groups == old(groups) && awayUsrs == old(awayUsrs) && outbox == old(outbox)
    {
      ok := true;
      var k := ConnIndex(connections, self).value;
      connections := connections[k := Conn(self, Some(username))];
      ConnIndexUnique(connections, k);
      users := users + [username];
    }

    /** `show groups`: the asking socket receives the group list. */
    method ShowGroups(self: ConnId)
      modifies this
      ensures outbox == old(outbox) + [Event(self, GetGroups(groups))]
      ensures users == old(users) && groups == old(groups) && connections == old(connections)
        && awayUsrs == old(awayUsrs)
    {
      outbox := outbox + [Event(self, GetGroups(groups))];
    }

    /** `get all groups`: the group list, in creation order. */
    method GetAllGroups() returns (gs: seq<Group>)
      ensures gs == groups
    {
      gs := groups;
    }

    /** `updateGroups`: every live socket receives the current group list. */
    method UpdateGroups()
      modifies this
      ensures outbox == old(outbox) + Broadcast(Ids(connections), [GetGroups(groups)])
      ensures users == old(users) && groups == old(groups) && connections == old(connections)
        && awayUsrs == old(awayUsrs)
    {
      outbox := outbox + Broadcast(Ids(connections), [GetGroups(groups)]);
    }

    /** `new group`: always answers true and appends the client's group as
        sent (name, admin, members, bans), with no check for a taken name;
        then every socket is sent the new group list. */
    method NewGroup(g: Group) returns (ok: bool)
      requires Valid()
      modifies this
      ensures Valid() && ok
      ensures groups == old(groups) + [g]
      ensures outbox == old(outbox) + Broadcast(Ids(connections), [GetGroups(groups)])
      ensures users == old(users) && connections == old(connections) && awayUsrs == old(awayUsrs)
    {
      ok := true;
      groups := groups + [g];
      UpdateGroups();
    }

    /** The inner `connections.forEach`: every socket logged in as `u`
        receives `msgs`, in connection order. */
    method EmitToName(u: string, msgs: seq<Msg>)
      modifies this
      ensures outbox == old(outbox) + Broadcast(Matching(connections, u), msgs)
      ensures users == old(users) && groups == old(groups) && connections == old(connections)
        && awayUsrs == old(awayUsrs)
    {
      var cs := connections;
      ghost var sent: seq<ConnId> := [];
      var i := 0;
      while i < |cs|
        invariant 0 <= i <= |cs|
        invariant sent == Matching(cs[..i], u)
        invariant outbox == old(outbox) + Broadcast(sent, msgs)
        invariant users == old(users) && groups == old(groups) && connections == cs
          && awayUsrs == old(awayUsrs)
      {
        assert cs[..i + 1] == cs[..i] + [cs[i]];
        MatchingSnoc(cs[..i], cs[i], u);
        if cs[i].username == Some(u) {
          BroadcastSnoc(sent, cs[i].id, msgs);
          outbox := outbox + Send(cs[i].id, msgs);
          sent := sent + [cs[i].id];
        }
        i := i + 1;
      }
      assert cs[..i] == cs;
    }

    /** The nested `forEach` loops of the fan-out: every socket logged in
        under a name of `members` receives `msgs`, name by name. */
    method Notify(members: seq<string>, msgs: seq<Msg>)
      modifies this
      ensures outbox == old(outbox) + Broadcast(Deliveries(members, connections), msgs)
      ensures users == old(users) && groups == old(groups) && connections == old(connections)
        && awayUsrs == old(awayUsrs)
    {
      var cs := connections;
      var i := 0;
      while i < |members|
        invariant 0 <= i <= |members|
        invariant outbox == old(outbox) + Broadcast(Deliveries(members[..i], cs), msgs)
        invariant users == old(users) && groups == old(groups) && connections == cs
          && awayUsrs == old(awayUsrs)
      {
        ghost var before := outbox;
        EmitToName(members[i], msgs);
        ServeNext(old(outbox), members, i, cs, msgs, before, outbox);
        i := i + 1;
      }
      assert members[..i] == members;
    }

    /** `join group`. State never changes. A member gets the member list as
        the answer and is sent to the group's messages; a banned
        non-member is denied; anyone else triggers a request to the first
        socket logged in as the admin and an acknowledgement. */
    method JoinGroup(self: ConnId, groupName: string, requester: string)
      returns (r: Outcome<Option<seq<string>>>)
      requires Valid()
      modifies this
      ensures Valid()
      ensures users == old(users) && groups == old(groups) && connections == old(connections)
        && awayUsrs == old(awayUsrs)
      ensures FindGroup(groups, groupName).None? ==> r == NotFound && outbox == old(outbox)
      ensures FindGroup(groups, groupName).Some? ==>
        var g := groups[FindGroup(groups, groupName).value];
        (requester in g.users ==>
          r == Done(Some(g.users)) && outbox == old(outbox) + [Event(self, GotoMessages(groupName))])
        && (requester !in g.users && requester in g.bans ==>
          r == Done(None) && outbox == old(outbox) + [Event(self, DenyBecauseOfBan)])
        && (requester !in g.users && requester !in g.bans ==>
          (FindConn(connections, g.admin).None? ==> r == NotFound && outbox == old(outbox))
          && (FindConn(connections, g.admin).Some? ==>
            r == Done(None)
            && outbox == old(outbox)
               + [Event(connections[FindConn(connections, g.admin).value].id, AskedForPermission(requester, groupName)),
                  Event(self, AskForPermission)]))
    {
      var found := FindGroup(groups, groupName);
      if found.None? {
        return NotFound;
      }
      var g := groups[found.value];
      if requester in g.users {
        r := Done(Some(g.users));
        outbox := outbox + [Event(self, GotoMessages(groupName))];
      } else if NotBanned(g, requester) {
        var admin := FindConn(connections, g.admin);
        if admin.None? {
          return NotFound;
        }
        outbox := outbox + [Event(connections[admin.value].id, AskedForPermission(requester, groupName))];
        outbox := outbox + [Event(self, AskForPermission)];
        r := Done(None);
      } else {
        outbox := outbox + [Event(self, DenyBecauseOfBan)];
        r := Done(None);
      }
    }

    /** `userNotBannedFromGroup`. */
    static predicate NotBanned(g: Group, u: string)
      ensures NotBanned(g, u) <==> forall i :: 0 <= i < |g.bans| ==> g.bans[i] != u
    {
      u !in g.bans
    }

    /** `aceito que entre`: appends `user` to the group's members with no
        check at all (a member is appended again, a banned user too, and
        the caller need not be the admin); the first socket logged in as
        `user` gets the new member list, the acceptance and the navigation,
        and every socket of every other member hears that `user` joined.
        Only the first group with that name changes. */
    method Approve(user: string, group: string) returns (r: Outcome<()>)
      requires Valid()
      modifies this
      ensures Valid()
      ensures users == old(users) && connections == old(connections) && awayUsrs == old(awayUsrs)
      ensures FindGroup(old(groups), group).None? ==>
        r == NotFound && groups == old(groups) && outbox == old(outbox)
      ensures FindGroup(old(groups), group).Some? ==>
        var g := FindGroup(old(groups), group).value;
        var joined := old(groups)[g].users + [user];
        groups == old(groups)[g := old(groups)[g].(users := joined)]
        && (FindConn(connections, user).None? ==> r == NotFound && outbox == old(outbox))
        && (FindConn(connections, user).Some? ==>
          var c := connections[FindConn(connections, user).value].id;
          r == Done(())
          && outbox == old(outbox)
             + [Event(c, MembersUpdate(joined)), Event(c, PermissionAccepted), Event(c, GotoMessages(group))]
             + Broadcast(Deliveries(Without(joined, user), connections), [OtherUserJoined(user)]))
    {
      var found := FindGroup(groups, group);
      if found.None? {
        return NotFound;
      }
      var g := found.value;
      var usrs := groups[g].users + [user];
      groups := groups[g := groups[g].(users := usrs)];
      var c := FindConn(connections, user);
      if c.None? {
        return NotFound;
      }
      var id := connections[c.value].id;
      outbox := outbox + [Event(id, MembersUpdate(usrs)), Event(id, PermissionAccepted), Event(id, GotoMessages(group))];
      // `otherUsers` looks the group up again by name: the same group, whose
      // list now ends with `user`; the loop skips every entry equal to `user`.
      Notify(Without(usrs, user), [OtherUserJoined(user)]);
      r := Done(());
    }

    /** `rejeito que entre`: every socket logged in as `user` is told no.
        Nothing is stored about the request. */
    method Reject(user: string)
      modifies this
      ensures outbox == old(outbox) + Broadcast(Matching(connections, user), [PermissionRejected])
      ensures users == old(users) && groups == old(groups) && connections == old(connections)
        && awayUsrs == old(awayUsrs)
    {
      EmitToName(user, [PermissionRejected]);
    }

    /** `delete group`: the group goes only when the requester is its admin
        and its member list is exactly [requester]; then the answer is true
        and every socket gets the new group list. An admin with a member
        count other than one gets false; a non-admin, or an admin whose only
        member is someone else, gets no answer. */
    method DeleteGroup(groupName: string, requester: string) returns (r: Outcome<Option<bool>>)
      requires Valid()
      modifies this
      ensures Valid()
      ensures users == old(users) && connections == old(connections) && awayUsrs == old(awayUsrs)
      ensures FindGroup(old(groups), groupName).None? ==>
        r == NotFound && groups == old(groups) && outbox == old(outbox)
      ensures FindGroup(old(groups), groupName).Some? ==>
        var g := FindGroup(old(groups), groupName).value;
        var grp := old(groups)[g];
        r.Done?
        && (r.value == Some(true) <==> requester == grp.admin && grp.users == [requester])
        && (r.value == Some(false) <==> requester == grp.admin && |grp.users| != 1)
        && (r.value == Some(true) ==>
          groups == old(groups)[..g] + old(groups)[g + 1..]
          && outbox == old(outbox) + Broadcast(Ids(connections), [GetGroups(groups)]))
        && (r.value != Some(true) ==> groups == old(groups) && outbox == old(outbox))
    {
      var found := FindGroup(groups, groupName);
      if found.None? {
        return NotFound;
      }
      var i := found.value;
      var grp := groups[i];
      r := Done(None);
      if requester == grp.admin {
        if |grp.users| == 1 {
          if grp.users[0] == requester {
            groups := SpliceOne(groups, i);
            r := Done(Some(true));
            UpdateGroups();
          }
          // otherwise the handler only logs "erro na lógica"
        } else {
          r := Done(Some(false));
        }
      }
    }

    /** `get users on this group`: the member list of the first group with
        that name. */
    method UsersOnGroup(group: string) returns (r: Outcome<seq<string>>)
      ensures r.NotFound? <==> forall k :: 0 <= k < |groups| ==> groups[k].name != group
      ensures r.Done? ==>
        exists k :: 0 <= k < |groups| && groups[k].name == group && r.value == groups[k].users
          && forall j :: 0 <= j < k ==> groups[j].name != group
    {
      var found := FindGroup(groups, group);
      if found.None? {
        return NotFound;
      }
      r := Done(groups[found.value].users);
    }

    /** The away-clearing loop of `send message`, as intended: every
        marker of `sender` is dropped, the others stay in order, and the
        answer says whether there was one. */
    method ClearMarkers(sender: string) returns (wasAway: bool)
      modifies this
      ensures awayUsrs == ClearAway(old(awayUsrs), sender)
      ensures wasAway == HasMarker(old(awayUsrs), sender)
      ensures users == old(users) && groups == old(groups) && connections == old(connections)
        && outbox == old(outbox)
    {
      var markers := awayUsrs;
      var kept: seq<AwayMarker> := [];
      wasAway := false;
      var i := 0;
      while i < |markers|
        invariant 0 <= i <= |markers|
        invariant kept == ClearAway(markers[..i], sender)
        invariant wasAway == HasMarker(markers[..i], sender)
        invariant users == old(users) && groups == old(groups) && connections == old(connections)
          && outbox == old(outbox) && awayUsrs == markers
      {
        ClearAwayStep(markers, i, sender);
        HasMarkerStep(markers, i, sender);
        if markers[i].user == sender {
          wasAway := true;
        } else {
          kept := kept + [markers[i]];
        }
        i := i + 1;
      }
      assert markers[..i] == markers;
      awayUsrs := kept;
    }

    /** `send message`: every marker of the sender is cleared (the
        intended clearing; the loop as written removes the wrong markers,
        see `Scan`), then every socket of every member receives, when the
        sender had a marker, "no longer away" and then the message, signed
        with the sending SOCKET's name rather than the `userSender`
        argument. The markers are already cleared when the group lookup
        fails. */
    method SendMessage(self: ConnId, data: string, group: string, userSender: string)
      returns (r: Outcome<()>)
      requires Valid() && Live(self)
      modifies this
      ensures Valid()
      ensures awayUsrs == ClearAway(old(awayUsrs), userSender)
      ensures users == old(users) && groups == old(groups) && connections == old(connections)
      ensures r.NotFound? <==> FindGroup(groups, group).None?
      ensures r.NotFound? ==> outbox == old(outbox)
      ensures r.Done? ==>
        outbox == old(outbox)
        + Broadcast(Deliveries(groups[FindGroup(groups, group).value].users, connections),
                    GroupMessage(HasMarker(old(awayUsrs), userSender), userSender, data,
                                 UsernameOf(connections, self)))
    {
      var userWasAway := ClearMarkers(userSender);
      var found := FindGroup(groups, group);
      if found.None? {
        return NotFound;
      }
      var k := ConnIndex(connections, self).value;
      Notify(groups[found.value].users, GroupMessage(userWasAway, userSender, data, connections[k].username));
      r := Done(());
    }

    /** `private message`: when any marker names the target, the first
        socket of the sender is told the target is away and nothing is
        delivered; otherwise the first socket of the target receives the
        message, signed with the sender argument. */
    method PrivateMessage(sender: string, target: string, data: string) returns (r: Outcome<()>)
      requires Valid()
      modifies this
      ensures Valid()
      ensures users == old(users) && groups == old(groups) && connections == old(connections)
        && awayUsrs == old(awayUsrs)
      ensures HasMarker(awayUsrs, target) ==>
        (FindConn(connections, sender).None? ==> r == NotFound && outbox == old(outbox))
        && (FindConn(connections, sender).Some? ==>
          r == Done(())
          && outbox == old(outbox) + [Event(connections[FindConn(connections, sender).value].id, TargetIsAway(target))])
      ensures !HasMarker(awayUsrs, target) ==>
        (FindConn(connections, target).None? ==> r == NotFound && outbox == old(outbox))
        && (FindConn(connections, target).Some? ==>
          r == Done(())
          && outbox == old(outbox) + [Event(connections[FindConn(connections, target).value].id, NewMessage(data, Some(sender)))])
    {
      var targetIsAway := false;
      var i := 0;
      while i < |awayUsrs|
        invariant 0 <= i <= |awayUsrs|
        invariant targetIsAway <==> HasMarker(awayUsrs[..i], target)
      {
        assert awayUsrs[..i + 1][i] == awayUsrs[i];
        assert forall k :: 0 <= k < i ==> awayUsrs[..i + 1][k] == awayUsrs[..i][k];
        if awayUsrs[i].user == target {
          targetIsAway := true;
        }
        i := i + 1;
      }
      assert awayUsrs[..i] == awayUsrs;
      if targetIsAway {
        var c := FindConn(connections, sender);
        if c.None? {
          return NotFound;
        }
        outbox := outbox + [Event(connections[c.value].id, TargetIsAway(target))];
      } else {
        var c := FindConn(connections, target);
        if c.None? {
          return NotFound;
        }
        outbox := outbox + [Event(connections[c.value].id, NewMessage(data, Some(sender)))];
      }
      r := Done(());
    }

    /** `novo nick`: refused (false) when `newName` is already in `users`;
        otherwise every `currentName` in `users`, in the sockets' names and
        in the groups' `admin` fields becomes `newName`, and the answer is
        (true, newName). Member lists and ban lists keep the old name. */
    method Rename(currentName: string, newName: string) returns (r: Option<string>)
      requires Valid()
      modifies this
      ensures Valid()
      ensures r.None? <==> newName in old(users)
      ensures r.None? ==> users == old(users) && groups == old(groups) && connections == old(connections)
      ensures r.Some? ==>
        r.value == newName
        && users == Replace(old(users), currentName, newName)
        && connections == RenameConns(old(connections), currentName, newName)
        && groups == RenameAdmins(old(groups), currentName, newName)
      ensures awayUsrs == old(awayUsrs) && outbox == old(outbox)
    {
      if newName in users {
        return None;
      }
      var i := 0;
      while i < |users|
        invariant 0 <= i <= |users| && |users| == |old(users)|
        invariant forall k :: 0 <= k < i ==> users[k] == if old(users)[k] == currentName then newName else old(users)[k]
        invariant forall k :: i <= k < |users| ==> users[k] == old(users)[k]
        invariant groups == old(groups) && connections == old(connections)
          && awayUsrs == old(awayUsrs) && outbox == old(outbox)
      {
        if users[i] == currentName {
          users := users[i := newName];
        }
        i := i + 1;
      }
      i := 0;
      while i < |connections|
        invariant 0 <= i <= |connections| && |connections| == |old(connections)|
        invariant forall k :: 0 <= k < i ==> connections[k] == RenameConns(old(connections), currentName, newName)[k]
        invariant forall k :: i <= k < |connections| ==> connections[k] == old(connections)[k]
        invariant users == Replace(old(users), currentName, newName) && groups == old(groups)
          && awayUsrs == old(awayUsrs) && outbox == old(outbox)
      {
        if connections[i].username == Some(currentName) {
          connections := connections[i := connections[i].(username := Some(newName))];
        }
        i := i + 1;
      }
      i := 0;
      while i < |groups|
        invariant 0 <= i <= |groups| && |groups| == |old(groups)|
        invariant forall k :: 0 <= k < i ==> groups[k] == RenameAdmins(old(groups), currentName, newName)[k]
        invariant forall k :: i <= k < |groups| ==> groups[k] == old(groups)[k]
        invariant users == Replace(old(users), currentName, newName)
          && connections == RenameConns(old(connections), currentName, newName)
          && awayUsrs == old(awayUsrs) && outbox == old(outbox)
      {
        if groups[i].admin == currentName {
          groups := groups[i := groups[i].(admin := newName)];
        }
        i := i + 1;
      }
      r := Some(newName);
    }

    /** `leave group`: every entry equal to `userName` leaves the member
        list, the rest keep their order, and the answer is always true. The
        admin can leave like anyone else. */
    method LeaveGroup(userName: string, groupName: string) returns (r: Outcome<bool>)
      requires Valid()
      modifies this
      ensures Valid()
      ensures users == old(users) && connections == old(connections) && awayUsrs == old(awayUsrs)
        && outbox == old(outbox)
      ensures FindGroup(old(groups), groupName).None? ==> r == NotFound && groups == old(groups)
      ensures FindGroup(old(groups), groupName).Some? ==>
        var g := FindGroup(old(groups), groupName).value;
        r == Done(true)
        && groups == old(groups)[g := old(groups)[g].(users := Without(old(groups)[g].users, userName))]
    {
      var found := FindGroup(groups, groupName);
      if found.None? {
        return NotFound;
      }
      var g := found.value;
      groups := groups[g := groups[g].(users := Without(groups[g].users, userName))];
      r := Done(true);
    }

    /** `ban`: acts only when the commander is the group's admin and the
        target is a member. Then the target leaves the member list, joins
        the ban list, and the first socket logged in as the target is told
        (the lists are already changed when there is none). The result says
        whether the callback was called. */
    method Ban(commander: string, target: string, groupName: string) returns (r: Outcome<bool>)
      requires Valid()
      modifies this
      ensures Valid()
      ensures users == old(users) && connections == old(connections) && awayUsrs == old(awayUsrs)
      ensures FindGroup(old(groups), groupName).None? ==>
        r == NotFound && groups == old(groups) && outbox == old(outbox)
      ensures FindGroup(old(groups), groupName).Some? ==>
        var g := FindGroup(old(groups), groupName).value;
        var grp := old(groups)[g];
        (grp.admin == commander && target in grp.users ==>
          groups == old(groups)[g := grp.(users := Without(grp.users, target), bans := grp.bans + [target])]
          && (FindConn(connections, target).None? ==> r == NotFound && outbox == old(outbox))
          && (FindConn(connections, target).Some? ==>
            r == Done(true)
            && outbox == old(outbox) + [Event(connections[FindConn(connections, target).value].id, YouHaveBeenBanned)]))
        && (!(grp.admin == commander && target in grp.users) ==>
          r == Done(false) && groups == old(groups) && outbox == old(outbox))
    {
      var found := FindGroup(groups, groupName);
      if found.None? {
        return NotFound;
      }
      var g := found.value;
      var belongs := target in groups[g].users;
      if groups[g].admin == commander && belongs {
        var con := FindConn(connections, target);
        groups := groups[g := groups[g].(users := Without(groups[g].users, target))];
        groups := groups[g := groups[g].(bans := groups[g].bans + [target])];
        if con.None? {
          return NotFound;
        }
        outbox := outbox + [Event(connections[con.value].id, YouHaveBeenBanned)];
        r := Done(true);
      } else {
        r := Done(false);
      }
    }

    /** `kick`: as `ban`, except that the ban list is left alone, so the
        target may ask to join again. */
    method Kick(commander: string, target: string, groupName: string) returns (r: Outcome<bool>)
      requires Valid()
      modifies this
      ensures Valid()
      ensures users == old(users) && connections == old(connections) && awayUsrs == old(awayUsrs)
      ensures FindGroup(old(groups), groupName).None? ==>
        r == NotFound && groups == old(groups) && outbox == old(outbox)
      ensures FindGroup(old(groups), groupName).Some? ==>
        var g := FindGroup(old(groups), groupName).value;
        var grp := old(groups)[g];
        (grp.admin == commander && target in grp.users ==>
          groups == old(groups)[g := grp.(users := Without(grp.users, target))]
          && (FindConn(connections, target).None? ==> r == NotFound && outbox == old(outbox))
          && (FindConn(connections, target).Some? ==>
            r == Done(true)
            && outbox == old(outbox) + [Event(connections[FindConn(connections, target).value].id, YouHaveBeenKicked)]))
        && (!(grp.admin == commander && target in grp.users) ==>
          r == Done(false) && groups == old(groups) && outbox == old(outbox))
    {
      var found := FindGroup(groups, groupName);
      if found.None? {
        return NotFound;
      }
      var g := found.value;
      var belongs := target in groups[g].users;
      if groups[g].admin == commander && belongs {
        var con := FindConn(connections, target);
        groups := groups[g := groups[g].(users := Without(groups[g].users, target))];
        if con.None? {
          return NotFound;
        }
        outbox := outbox + [Event(connections[con.value].id, YouHaveBeenKicked)];
        r := Done(true);
      } else {
        r := Done(false);
      }
    }

    /** `away`: every socket of every member of the group hears that
        `userName` is away, and a marker (userName, groupName) is appended. */
    method Away(userName: string, groupName: string) returns (r: Outcome<()>)
      requires Valid()
      modifies this
      ensures Valid()
      ensures users == old(users) && groups == old(groups) && connections == old(connections)
      ensures FindGroup(groups, groupName).None? ==>
        r == NotFound && awayUsrs == old(awayUsrs) && outbox == old(outbox)
      ensures FindGroup(groups, groupName).Some? ==>
        r == Done(())
        && awayUsrs == old(awayUsrs) + [AwayMarker(userName, groupName)]
        && outbox == old(outbox)
           + Broadcast(Deliveries(groups[FindGroup(groups, groupName).value].users, connections), [UserAway(userName)])
      ensures r.Done? ==> HasMarker(awayUsrs, userName)
    {
      var found := FindGroup(groups, groupName);
      if found.None? {
        return NotFound;
      }
      Notify(groups[found.value].users, [UserAway(userName)]);
      awayUsrs := awayUsrs + [AwayMarker(userName, groupName)];
      assert awayUsrs[|awayUsrs| - 1].user == userName;
      r := Done(());
    }
  }
}
